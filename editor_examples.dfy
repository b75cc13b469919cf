/**
 * Worked outcomes of the anchor diff: three plain edits, one that replaces
 * a whole surrogate pair without any back-off, and one for each of the two
 * surrogate back-offs.
 */
module EditorExamples {
  import opened Wrappers
  import opened Editor

  /** `""` to `"x"`: insert `x` at offset 0. */
  lemma InsertIntoEmpty()
    ensures AnchorDiff([], ['x' as int]) == Some(Change(0, 0, ['x' as int]))
  {
    var o: Text, n: Text := [], ['x' as int];
    assert KeptPrefix(o, n) == 0;
    assert CommonSuffix(o, n, 0) == 0;
    assert KeptSuffix(o, n) == 0;
    assert o != n by { assert |o| != |n|; }
    assert n[0..1] == n;
  }

  /** `"x"` to `""`: delete `[0, 1)`. */
  lemma DeleteAll()
    ensures AnchorDiff(['x' as int], []) == Some(Change(0, 1, []))
  {
    var o: Text, n: Text := ['x' as int], [];
    assert KeptPrefix(o, n) == 0;
    assert KeptSuffix(o, n) == 0;
  }

  /** The code units of "hello world". */
  const HelloWorld: Text := [0x68, 0x65, 0x6C, 0x6C, 0x6F, 0x20, 0x77, 0x6F, 0x72, 0x6C, 0x64]

  /** The code units of "hello there". */
  const HelloThere: Text := [0x68, 0x65, 0x6C, 0x6C, 0x6F, 0x20, 0x74, 0x68, 0x65, 0x72, 0x65]

  /** "hello world" to "hello there": replace `[6, 11)` by "there". */
  lemma ReplaceWord()
    ensures AnchorDiff(HelloWorld, HelloThere) == Some(Change(6, 11, [0x74, 0x68, 0x65, 0x72, 0x65]))
  {
    CommonPrefixIs(HelloWorld, HelloThere, 6);
    assert KeptPrefix(HelloWorld, HelloThere) == 6;
    CommonSuffixIs(HelloWorld, HelloThere, 6, 0);
    assert KeptSuffix(HelloWorld, HelloThere) == 0;
    assert HelloWorld != HelloThere by { assert HelloWorld[6] != HelloThere[6]; }
    assert HelloThere[6..11] == [0x74, 0x68, 0x65, 0x72, 0x65];
  }

  /**
   * "a𝄞b" to "a b": the whole pair U+1D11E is replaced, since the scans
   * stop on either side of it.
   */
  lemma ReplacePair()
    ensures AnchorDiff([0x61, 0xD834, 0xDD1E, 0x62], [0x61, 0x20, 0x62]) == Some(Change(1, 3, [0x20]))
  {
    var o: Text, n: Text := [0x61, 0xD834, 0xDD1E, 0x62], [0x61, 0x20, 0x62];
    CommonPrefixIs(o, n, 1);
    assert KeptPrefix(o, n) == 1;
    CommonSuffixIs(o, n, 1, 1);
    assert KeptSuffix(o, n) == 1;
    assert o != n by { assert |o| != |n|; }
    assert n[1..2] == [0x20];
  }

  /**
   * "a𝄞" to "a𝄠": the common prefix would end after the high surrogate
   * 0xD834, so it backs off to 1 and the whole pair is rewritten.
   */
  lemma PrefixBacksOff()
    ensures AnchorDiff([0x61, 0xD834, 0xDD1E], [0x61, 0xD834, 0xDD20]) == Some(Change(1, 3, [0xD834, 0xDD20]))
  {
    var o: Text, n: Text := [0x61, 0xD834, 0xDD1E], [0x61, 0xD834, 0xDD20];
    CommonPrefixIs(o, n, 2);
    assert KeptPrefix(o, n) == 1;
    CommonSuffixIs(o, n, 1, 0);
    assert KeptSuffix(o, n) == 0;
    assert o != n by { assert o[2] != n[2]; }
    assert n[1..3] == [0xD834, 0xDD20];
  }

  /**
   * U+1D11E to U+1D51E (both end in the low surrogate 0xDD1E): the common suffix
   * would start on that low surrogate, so it backs off to 0.
   */
  lemma SuffixBacksOff()
    ensures AnchorDiff([0xD834, 0xDD1E], [0xD835, 0xDD1E]) == Some(Change(0, 2, [0xD835, 0xDD1E]))
  {
    var o: Text, n: Text := [0xD834, 0xDD1E], [0xD835, 0xDD1E];
    CommonPrefixIs(o, n, 0);
    assert KeptPrefix(o, n) == 0;
    CommonSuffixIs(o, n, 0, 1);
    assert KeptSuffix(o, n) == 0;
    assert o != n by { assert o[0] != n[0]; }
    assert n[0..2] == n;
  }
}
