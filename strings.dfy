/**
 * The two JavaScript string operations the shortcut code relies on,
 * specialised to a one-character separator: `s.split(sep)` and
 * `parts.join(sep)`.
 */
module Strings {
  /**
   * `s.split(sep)`: the pieces of `s` between occurrences of `sep`. Like the
   * JavaScript method it always yields at least one piece, and a separator at
   * either end or two in a row yield empty pieces.
   */
  function Split(s: string, sep: char): (parts: seq<string>)
    ensures |parts| >= 1
  {
    if s == [] then
      [[]]
    else
      var rest := Split(s[1..], sep);
      if s[0] == sep then [[]] + rest else [[s[0]] + rest[0]] + rest[1..]
  }

  /** `parts.join(sep)`: the pieces with `sep` between neighbours; `""` for no pieces. */
  function Join(parts: seq<string>, sep: char): string
  {
    if |parts| == 0 then []
    else if |parts| == 1 then parts[0]
    else parts[0] + [sep] + Join(parts[1..], sep)
  }

  /** The last element of a non-empty sequence, `xs[xs.length - 1]`. */
  function Last<T>(xs: seq<T>): T
    requires |xs| > 0
  {
    xs[|xs| - 1]
  }

  /** No piece produced by `Split` contains the separator. */
  lemma {:induction false} SplitPiecesFree(s: string, sep: char)
    ensures forall i :: 0 <= i < |Split(s, sep)| ==> sep !in Split(s, sep)[i]
    decreases |s|
  {
    if s != [] {
      SplitPiecesFree(s[1..], sep);
      var rest := Split(s[1..], sep);
      if s[0] != sep {
        assert sep !in rest[0];
      }
    }
  }

  /** Joining the pieces of a split restores the string. */
  lemma {:induction false} JoinSplit(s: string, sep: char)
    ensures Join(Split(s, sep), sep) == s
    decreases |s|
  {
    if s != [] {
      JoinSplit(s[1..], sep);
      var rest := Split(s[1..], sep);
      if s[0] == sep {
        assert Split(s, sep) == [[]] + rest;
        assert ([[]] + rest)[1..] == rest;
      } else {
        var parts := Split(s, sep);
        assert parts == [[s[0]] + rest[0]] + rest[1..];
        if |rest| == 1 {
          assert parts == [[s[0]] + rest[0]];
        } else {
          assert parts[1..] == rest[1..];
          assert Join(rest, sep) == rest[0] + [sep] + Join(rest[1..], sep);
        }
      }
    }
  }

  /**
   * Splitting a join gives the pieces back, provided there is at least one
   * piece and none contains the separator.
   */
  lemma {:induction false} SplitJoin(parts: seq<string>, sep: char)
    requires |parts| >= 1
    requires forall i :: 0 <= i < |parts| ==> sep !in parts[i]
    ensures Split(Join(parts, sep), sep) == parts
    decreases |parts|, |parts[0]|
  {
    var head := parts[0];
    if |parts| == 1 {
      SplitFree(head, sep);
    } else if head == [] {
      SplitJoin(parts[1..], sep);
      var s := Join(parts, sep);
      assert s == [sep] + Join(parts[1..], sep);
      assert s[1..] == Join(parts[1..], sep);
      assert parts == [[]] + parts[1..];
    } else {
      var shorter := [head[1..]] + parts[1..];
      assert shorter[1..] == parts[1..];
      SplitJoin(shorter, sep);
      var s := Join(parts, sep);
      assert s == [head[0]] + Join(shorter, sep);
      assert s[1..] == Join(shorter, sep);
      assert [head[0]] + head[1..] == head;
    }
  }

  /** A string without the separator splits into itself alone. */
  lemma {:induction false} SplitFree(s: string, sep: char)
    requires sep !in s
    ensures Split(s, sep) == [s]
    decreases |s|
  {
    if s != [] {
      assert sep !in s[1..];
      SplitFree(s[1..], sep);
      assert [s[0]] + s[1..] == s;
    }
  }

  /** A join ends with its last piece. */
  lemma {:induction false} JoinLast(init: seq<string>, last: string, sep: char)
    ensures |Join(init + [last], sep)| >= |last|
    ensures Join(init + [last], sep)[|Join(init + [last], sep)| - |last|..] == last
    decreases |init|
  {
    if init != [] {
      var parts := init + [last];
      assert parts[1..] == init[1..] + [last];
      JoinLast(init[1..], last, sep);
    }
  }

  /** A string that ends with the separator splits with an empty last piece. */
  lemma {:induction false} SplitEndsWithSeparator(s: string, sep: char)
    requires |s| > 0 && s[|s| - 1] == sep
    ensures Last(Split(s, sep)) == []
    decreases |s|
  {
    if |s| > 1 {
      SplitEndsWithSeparator(s[1..], sep);
    }
  }
}
