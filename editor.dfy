/**
 * The editor side of the formatter: the single-hunk "anchor" diff that turns
 * the old document text and the formatted text into one range replacement,
 * and the editor view that applies that replacement as one transaction.
 *
 * Texts are sequences of UTF-16 code units, as JavaScript strings are:
 * `s.length` is `|s|`, `s.charCodeAt(i)` and `s[i]` are `s[i]`, and
 * `s.slice(i, j)` is `s[i..j]`.
 */
module Editor {
  import opened Wrappers

  /** One UTF-16 code unit. */
  type CodeUnit = c: int | 0 <= c < 0x1_0000

  type Text = seq<CodeUnit>

  /** A CodeMirror change: replace `[from, to)` of the document by `insert`. */
  datatype Change = Change(from: nat, to: nat, insert: Text)

  /** First half of a surrogate pair. */
  predicate IsHighSurrogate(code: int) { 0xD800 <= code <= 0xDBFF }

  /** Second half of a surrogate pair. */
  predicate IsLowSurrogate(code: int) { 0xDC00 <= code <= 0xDFFF }

  /** Offset `i` falls strictly inside a surrogate pair of `s`. */
  predicate SplitsPair(s: Text, i: int)
  {
    0 < i < |s| && IsHighSurrogate(s[i - 1]) && IsLowSurrogate(s[i])
  }

  /** A change whose range lies inside `text`. */
  predicate InRange(text: Text, c: Change)
  {
    c.from <= c.to <= |text|
  }

  /** The document after a change: `[from, to)` replaced by `insert`. */
  function Splice(text: Text, c: Change): Text
    requires InRange(text, c)
  {
    text[..c.from] + c.insert + text[c.to..]
  }

  function Min(a: int, b: int): int { if a < b then a else b }

  // ---------------------------------------------------------------------
  // Specification of the anchor diff
  // ---------------------------------------------------------------------

  /**
   * Length of the longest common prefix of `a` and `b`: the scan from the
   * start stops at the shorter length or at the first mismatch.
   */
  function CommonPrefix(a: Text, b: Text): (n: nat)
    ensures n <= |a| && n <= |b|
    ensures n < |a| && n < |b| ==> a[n] != b[n]
  {
    PrefixFrom(a, b, 0)
  }

  /** The common-prefix scan, resumed at offset `i`. */
  function PrefixFrom(a: Text, b: Text, i: nat): (n: nat)
    requires i <= |a| && i <= |b|
    ensures i <= n <= |a| && n <= |b|
    ensures n < |a| && n < |b| ==> a[n] != b[n]
    decreases |a| - i
  {
    if i < |a| && i < |b| && a[i] == b[i] then PrefixFrom(a, b, i + 1) else i
  }

  /** The code unit `k` places before the end of `s`. */
  function FromEnd(s: Text, k: nat): CodeUnit
    requires k < |s|
  {
    s[|s| - 1 - k]
  }

  /**
   * Length of the longest common suffix of `a[p..]` and `b[p..]`: the scan
   * from the ends stops at the shorter remaining length or at the first
   * mismatch, so it never reaches back into the first `p` code units.
   */
  function CommonSuffix(a: Text, b: Text, p: nat): (n: nat)
    requires p <= |a| && p <= |b|
    ensures n <= |a| - p && n <= |b| - p
    ensures n < |a| - p && n < |b| - p ==> FromEnd(a, n) != FromEnd(b, n)
  {
    SuffixFrom(a, b, p, 0)
  }

  /** The common-suffix scan, resumed `k` code units before the ends. */
  function SuffixFrom(a: Text, b: Text, p: nat, k: nat): (n: nat)
    requires p <= |a| && p <= |b| && k <= |a| - p && k <= |b| - p
    ensures k <= n <= |a| - p && n <= |b| - p
    ensures n < |a| - p && n < |b| - p ==> FromEnd(a, n) != FromEnd(b, n)
    decreases |a| - k
  {
    if k < |a| - p && k < |b| - p && FromEnd(a, k) == FromEnd(b, k) then SuffixFrom(a, b, p, k + 1) else k
  }

  /**
   * Moves a prefix length `p` back over every high surrogate just before it,
   * so that the prefix never ends between the halves of a pair.
   */
  function BackOffHigh(s: Text, p: nat): (r: nat)
    requires p <= |s|
    ensures r <= p
    ensures r == 0 || !IsHighSurrogate(s[r - 1])
  {
    if p > 0 && IsHighSurrogate(s[p - 1]) then BackOffHigh(s, p - 1) else p
  }

  /**
   * Shrinks a suffix length `n` while the suffix would start on a low
   * surrogate in either text.
   */
  function BackOffLow(a: Text, b: Text, n: nat): (r: nat)
    requires n <= |a| && n <= |b|
    ensures r <= n
    ensures r == 0 || (!IsLowSurrogate(a[|a| - r]) && !IsLowSurrogate(b[|b| - r]))
  {
    if n > 0 && (IsLowSurrogate(a[|a| - n]) || IsLowSurrogate(b[|b| - n])) then
      BackOffLow(a, b, n - 1)
    else
      n
  }

  /** The length of the prefix the anchor diff keeps. */
  function KeptPrefix(oldText: Text, newText: Text): (p: nat)
    ensures p <= |oldText| && p <= |newText|
  {
    BackOffHigh(oldText, CommonPrefix(oldText, newText))
  }

  /**
   * The length of the suffix the anchor diff keeps, measured only over what
   * follows the kept prefix.
   */
  function KeptSuffix(oldText: Text, newText: Text): (s: nat)
    ensures s <= |oldText| - KeptPrefix(oldText, newText)
    ensures s <= |newText| - KeptPrefix(oldText, newText)
  {
    BackOffLow(oldText, newText, CommonSuffix(oldText, newText, KeptPrefix(oldText, newText)))
  }

  /**
   * The change the anchor diff proposes: keep the kept prefix and suffix and
   * replace the middle of `oldText` by the middle of `newText`.
   */
  function AnchorChange(oldText: Text, newText: Text): Change
  {
    var prefix, suffix := KeptPrefix(oldText, newText), KeptSuffix(oldText, newText);
    Change(prefix, |oldText| - suffix, newText[prefix..|newText| - suffix])
  }

  /** The anchor diff: no change for equal texts, otherwise `AnchorChange`. */
  function AnchorDiff(oldText: Text, newText: Text): Option<Change>
  {
    if oldText == newText then None else Some(AnchorChange(oldText, newText))
  }

  // ---------------------------------------------------------------------
  // The imperative diff
  // ---------------------------------------------------------------------

  /**
   * `calculateDiff`. Its four loops are the four methods below, run in the
   * order of the source; together they compute exactly `AnchorDiff`.
   */
  method CalculateDiff(oldText: Text, newText: Text) returns (change: Option<Change>)
    ensures change == AnchorDiff(oldText, newText)
    ensures change.None? <==> oldText == newText
    ensures change.Some? ==> InRange(oldText, change.value) && Splice(oldText, change.value) == newText
  {
    if oldText == newText {
      return None;
    }
    var prefix := ScanPrefix(oldText, newText);
    if prefix == |oldText| && prefix == |newText| {
      // Unreachable: the texts would be equal, which the first test excluded.
      CommonPrefixWhole(oldText, newText);
      assert false;
    }
    prefix := BackOffPrefix(oldText, prefix);
    var suffix := ScanSuffix(oldText, newText, prefix);
    suffix := BackOffSuffix(oldText, newText, suffix);
    var replaceStart := prefix;
    var replaceEnd := |oldText| - suffix;
    var replaceWith := newText[prefix..|newText| - suffix];
    change := Some(Change(replaceStart, replaceEnd, replaceWith));
    AnchorDiffRoundTrip(oldText, newText);
  }

  /** The first loop: step `prefix` over the code units both texts share. */
  method ScanPrefix(oldText: Text, newText: Text) returns (prefix: nat)
    ensures prefix == CommonPrefix(oldText, newText)
  {
    prefix := 0;
    var minLength := Min(|oldText|, |newText|);
    while prefix < minLength && oldText[prefix] == newText[prefix]
      invariant prefix <= minLength
      invariant PrefixFrom(oldText, newText, prefix) == CommonPrefix(oldText, newText)
    {
      prefix := prefix + 1;
    }
  }

  /** The second loop: step back while the prefix ends in a high surrogate. */
  method BackOffPrefix(oldText: Text, longest: nat) returns (prefix: nat)
    requires longest <= |oldText|
    ensures prefix == BackOffHigh(oldText, longest)
  {
    prefix := longest;
    while prefix > 0 && IsHighSurrogate(oldText[prefix - 1])
      invariant prefix <= longest
      invariant BackOffHigh(oldText, longest) <= prefix
    {
      prefix := prefix - 1;
    }
    if BackOffHigh(oldText, longest) < prefix {
      BackOffHighSkips(oldText, longest, prefix - 1);
    }
  }

  /**
   * The third loop: step `suffix` over the code units the remainders after
   * `prefix` share at their ends.
   */
  method ScanSuffix(oldText: Text, newText: Text, prefix: nat) returns (suffix: nat)
    requires prefix <= |oldText| && prefix <= |newText|
    ensures suffix == CommonSuffix(oldText, newText, prefix)
  {
    suffix := 0;
    var oldSuffix := oldText[prefix..];
    var newSuffix := newText[prefix..];
    var suffixMinLength := Min(|oldSuffix|, |newSuffix|);
    while suffix < suffixMinLength
      && oldSuffix[|oldSuffix| - 1 - suffix] == newSuffix[|newSuffix| - 1 - suffix]
      invariant suffix <= suffixMinLength
      invariant SuffixFrom(oldText, newText, prefix, suffix) == CommonSuffix(oldText, newText, prefix)
    {
      RemainderFromEnd(oldText, prefix, suffix);
      RemainderFromEnd(newText, prefix, suffix);
      suffix := suffix + 1;
    }
    if suffix < suffixMinLength {
      RemainderFromEnd(oldText, prefix, suffix);
      RemainderFromEnd(newText, prefix, suffix);
    }
  }

  /**
   * The fourth loop: step back while the suffix starts with a low surrogate
   * in either text.
   */
  method BackOffSuffix(oldText: Text, newText: Text, common: nat) returns (suffix: nat)
    requires common <= |oldText| && common <= |newText|
    ensures suffix == BackOffLow(oldText, newText, common)
  {
    suffix := common;
    while suffix > 0
      && (IsLowSurrogate(oldText[|oldText| - suffix]) || IsLowSurrogate(newText[|newText| - suffix]))
      invariant suffix <= common
      invariant BackOffLow(oldText, newText, suffix) == BackOffLow(oldText, newText, common)
    {
      BackOffLowStep(oldText, newText, suffix);
      suffix := suffix - 1;
    }
    BackOffLowStop(oldText, newText, suffix);
  }

  // ---------------------------------------------------------------------
  // Applying the diff
  // ---------------------------------------------------------------------

  /**
   * The part of a CodeMirror editor view the formatter touches: its document
   * and the number of transactions dispatched to it.
   */
  class EditorView {
    var doc: Text
    ghost var transactions: nat

    constructor(initial: Text)
      ensures doc == initial && transactions == 0
    {
      doc := initial;
      transactions := 0;
    }

    /** `dispatch({changes: c})`: one transaction splicing `c` into the document. */
    method Dispatch(c: Change)
      requires InRange(doc, c)
      modifies this
      ensures doc == Splice(old(doc), c)
      ensures transactions == old(transactions) + 1
    {
      doc := Splice(doc, c);
      transactions := transactions + 1;
    }

    /**
     * `applyDiff`: dispatch the anchor change when there is one. Starting
     * from a document holding `oldText`, the document ends up holding
     * `newText`, and a transaction is dispatched exactly when they differ.
     */
    method ApplyDiff(oldText: Text, newText: Text)
      requires doc == oldText
      modifies this
      ensures doc == newText
      ensures transactions == old(transactions) + (if oldText == newText then 0 else 1)
    {
      var change := CalculateDiff(oldText, newText);
      if change.Some? {
        Dispatch(change.value);
      }
    }
  }

  // ---------------------------------------------------------------------
  // Properties of the anchor diff
  // ---------------------------------------------------------------------

  /**
   * A change is produced exactly when the texts differ, and its range is
   * well formed: `from <= to <= |oldText|`, and the kept suffix fits in
   * `newText` after `from` because it was measured after the prefix only.
   */
  lemma AnchorDiffBounds(oldText: Text, newText: Text)
    ensures AnchorDiff(oldText, newText).None? <==> oldText == newText
    ensures AnchorDiff(oldText, newText).Some? ==>
      var c := AnchorDiff(oldText, newText).value;
      c.from <= c.to <= |oldText| &&
      c.from <= |newText| - (|oldText| - c.to) &&
      |c.insert| == |newText| - c.from - (|oldText| - c.to)
  {
  }

  /** Counting from the end, `s[p..]` and `s` agree. */
  lemma RemainderFromEnd(s: Text, p: nat, k: nat)
    requires p <= |s| && k < |s| - p
    ensures s[p..][|s[p..]| - 1 - k] == FromEnd(s, k)
  {
  }

  /** Texts whose common prefix is all of both are equal. */
  lemma CommonPrefixWhole(a: Text, b: Text)
    requires CommonPrefix(a, b) == |a| && CommonPrefix(a, b) == |b|
    ensures a == b
  {
    forall i | 0 <= i < |a|
      ensures a[i] == b[i]
    {
      PrefixFromAgrees(a, b, 0, i);
    }
  }

  /**
   * The common prefix is exactly the longest one: a length `j` up to which
   * both texts agree, and at which one text ends or the two differ.
   */
  lemma CommonPrefixIs(a: Text, b: Text, j: nat)
    requires j <= |a| && j <= |b|
    requires forall i :: 0 <= i < j ==> a[i] == b[i]
    requires j == |a| || j == |b| || a[j] != b[j]
    ensures CommonPrefix(a, b) == j
  {
    PrefixFromIs(a, b, 0, j);
  }

  lemma {:induction false} PrefixFromIs(a: Text, b: Text, i: nat, j: nat)
    requires i <= j <= |a| && j <= |b|
    requires forall k :: i <= k < j ==> a[k] == b[k]
    requires j == |a| || j == |b| || a[j] != b[j]
    ensures PrefixFrom(a, b, i) == j
    decreases j - i
  {
    if i < j {
      PrefixFromIs(a, b, i + 1, j);
    }
  }

  /**
   * The common suffix after `p` is exactly the longest one: a length `j` over
   * which both texts agree counting from their ends, and at which the
   * remainder of one text after `p` is used up or the two differ.
   */
  lemma CommonSuffixIs(a: Text, b: Text, p: nat, j: nat)
    requires p + j <= |a| && p + j <= |b|
    requires forall k :: 0 <= k < j ==> FromEnd(a, k) == FromEnd(b, k)
    requires p + j == |a| || p + j == |b| || FromEnd(a, j) != FromEnd(b, j)
    ensures CommonSuffix(a, b, p) == j
  {
    SuffixFromIs(a, b, p, 0, j);
  }

  lemma {:induction false} SuffixFromIs(a: Text, b: Text, p: nat, k: nat, j: nat)
    requires k <= j && p + j <= |a| && p + j <= |b|
    requires forall i :: k <= i < j ==> FromEnd(a, i) == FromEnd(b, i)
    requires p + j == |a| || p + j == |b| || FromEnd(a, j) != FromEnd(b, j)
    ensures SuffixFrom(a, b, p, k) == j
    decreases j - k
  {
    if k < j {
      SuffixFromIs(a, b, p, k + 1, j);
    }
  }

  /** Every code unit the common-prefix scan passes over agrees. */
  lemma {:induction false} PrefixFromAgrees(a: Text, b: Text, i: nat, j: nat)
    requires i <= |a| && i <= |b|
    requires i <= j < PrefixFrom(a, b, i)
    ensures a[j] == b[j]
    decreases j - i
  {
    if i < j {
      PrefixFromAgrees(a, b, i + 1, j);
    }
  }

  /** Every code unit the common-suffix scan passes over agrees. */
  lemma {:induction false} SuffixFromAgrees(a: Text, b: Text, p: nat, k: nat, j: nat)
    requires p <= |a| && p <= |b| && k <= |a| - p && k <= |b| - p
    requires k <= j < SuffixFrom(a, b, p, k)
    ensures FromEnd(a, j) == FromEnd(b, j)
    decreases j - k
  {
    if k < j {
      SuffixFromAgrees(a, b, p, k + 1, j);
    }
  }

  /** The back-off passes only over high surrogates. */
  lemma {:induction false} BackOffHighSkips(s: Text, p: nat, i: nat)
    requires p <= |s| && BackOffHigh(s, p) <= i < p
    ensures IsHighSurrogate(s[i])
  {
    if i < p - 1 {
      BackOffHighSkips(s, p - 1, i);
    }
  }

  /** One step of the suffix back-off loop. */
  lemma BackOffLowStep(a: Text, b: Text, n: nat)
    requires 0 < n <= |a| && n <= |b|
    requires IsLowSurrogate(a[|a| - n]) || IsLowSurrogate(b[|b| - n])
    ensures BackOffLow(a, b, n) == BackOffLow(a, b, n - 1)
  {
  }

  /** The suffix back-off loop stops where the suffix does not start on a low surrogate. */
  lemma BackOffLowStop(a: Text, b: Text, n: nat)
    requires n <= |a| && n <= |b|
    requires n == 0 || (!IsLowSurrogate(a[|a| - n]) && !IsLowSurrogate(b[|b| - n]))
    ensures BackOffLow(a, b, n) == n
  {
  }

  /** The back-off passes only over code units that are low surrogates in one of the texts. */
  lemma {:induction false} BackOffLowSkips(a: Text, b: Text, n: nat, k: nat)
    requires n <= |a| && n <= |b| && BackOffLow(a, b, n) <= k < n
    ensures IsLowSurrogate(FromEnd(a, k)) || IsLowSurrogate(FromEnd(b, k))
  {
    if k < n - 1 {
      BackOffLowSkips(a, b, n - 1, k);
    }
  }

  /**
   * The kept prefix is common to both texts and, unless empty, does not end
   * on a high surrogate; it is the longest common prefix with the run of
   * high surrogates at its end removed.
   */
  lemma KeptPrefixFacts(oldText: Text, newText: Text)
    ensures var p, longest := KeptPrefix(oldText, newText), CommonPrefix(oldText, newText);
      p <= longest &&
      (forall i :: 0 <= i < p ==> oldText[i] == newText[i]) &&
      (p == 0 || (!IsHighSurrogate(oldText[p - 1]) && !IsHighSurrogate(newText[p - 1]))) &&
      (forall i :: p <= i < longest ==> IsHighSurrogate(oldText[i]))
  {
    var p, longest := KeptPrefix(oldText, newText), CommonPrefix(oldText, newText);
    forall i | 0 <= i < longest
      ensures oldText[i] == newText[i]
    {
      PrefixFromAgrees(oldText, newText, 0, i);
    }
    forall i | p <= i < longest
      ensures IsHighSurrogate(oldText[i])
    {
      BackOffHighSkips(oldText, longest, i);
    }
  }

  /**
   * The last `KeptSuffix` code units of both texts agree; if the kept suffix
   * is not empty its first code unit is not a low surrogate in either text;
   * and it is the longest common suffix after the kept prefix with the code
   * units that are low surrogates in either text removed from its front.
   */
  lemma KeptSuffixFacts(oldText: Text, newText: Text)
    ensures var p, s := KeptPrefix(oldText, newText), KeptSuffix(oldText, newText);
      var common := CommonSuffix(oldText, newText, p);
      s <= common &&
      (forall k :: 0 <= k < s ==> FromEnd(oldText, k) == FromEnd(newText, k)) &&
      (s == 0 || (!IsLowSurrogate(oldText[|oldText| - s]) && !IsLowSurrogate(newText[|newText| - s]))) &&
      (forall k :: s <= k < common ==> IsLowSurrogate(FromEnd(oldText, k)) || IsLowSurrogate(FromEnd(newText, k)))
  {
    var p, s := KeptPrefix(oldText, newText), KeptSuffix(oldText, newText);
    var common := CommonSuffix(oldText, newText, p);
    forall k | 0 <= k < s
      ensures FromEnd(oldText, k) == FromEnd(newText, k)
    {
      SuffixFromAgrees(oldText, newText, p, 0, k);
    }
    forall k | s <= k < common
      ensures IsLowSurrogate(FromEnd(oldText, k)) || IsLowSurrogate(FromEnd(newText, k))
    {
      BackOffLowSkips(oldText, newText, common, k);
    }
  }

  /**
   * Replacing the middle of `oldText` by the middle of `newText` gives
   * `newText` whenever the two texts share the first `p` and the last `s`
   * code units.
   */
  lemma SpliceMiddle(oldText: Text, newText: Text, p: nat, s: nat)
    requires p + s <= |oldText| && p + s <= |newText|
    requires forall i :: 0 <= i < p ==> oldText[i] == newText[i]
    requires forall k :: 0 <= k < s ==> FromEnd(oldText, k) == FromEnd(newText, k)
    ensures Splice(oldText, Change(p, |oldText| - s, newText[p..|newText| - s])) == newText
  {
    assert oldText[..p] == newText[..p];
    assert oldText[|oldText| - s..] == newText[|newText| - s..] by {
      forall i | |oldText| - s <= i < |oldText|
        ensures oldText[i] == newText[i + |newText| - |oldText|]
      {
        assert FromEnd(oldText, |oldText| - 1 - i) == FromEnd(newText, |oldText| - 1 - i);
      }
    }
    assert newText == newText[..p] + newText[p..|newText| - s] + newText[|newText| - s..];
  }

  /** The kept prefix is a common prefix of both texts. */
  lemma KeptPrefixAgrees(oldText: Text, newText: Text)
    ensures forall i :: 0 <= i < KeptPrefix(oldText, newText) ==> oldText[i] == newText[i]
  {
    forall i | 0 <= i < KeptPrefix(oldText, newText)
      ensures oldText[i] == newText[i]
    {
      PrefixFromAgrees(oldText, newText, 0, i);
    }
  }

  /** The kept suffix is a common suffix of both texts. */
  lemma KeptSuffixAgrees(oldText: Text, newText: Text)
    ensures forall k :: 0 <= k < KeptSuffix(oldText, newText) ==> FromEnd(oldText, k) == FromEnd(newText, k)
  {
    var p := KeptPrefix(oldText, newText);
    forall k | 0 <= k < KeptSuffix(oldText, newText)
      ensures FromEnd(oldText, k) == FromEnd(newText, k)
    {
      SuffixFromAgrees(oldText, newText, p, 0, k);
    }
  }

  /** The anchor change splices the old text into the new one. */
  lemma AnchorChangeRoundTrip(oldText: Text, newText: Text)
    ensures InRange(oldText, AnchorChange(oldText, newText))
    ensures Splice(oldText, AnchorChange(oldText, newText)) == newText
  {
    KeptPrefixAgrees(oldText, newText);
    KeptSuffixAgrees(oldText, newText);
    SpliceMiddle(oldText, newText, KeptPrefix(oldText, newText), KeptSuffix(oldText, newText));
  }

  /** Splicing the change into the old text gives the new text. */
  lemma AnchorDiffRoundTrip(oldText: Text, newText: Text)
    ensures AnchorDiff(oldText, newText).Some? ==>
      var c := AnchorDiff(oldText, newText).value;
      InRange(oldText, c) && Splice(oldText, c) == newText
  {
    if oldText != newText {
      AnchorChangeRoundTrip(oldText, newText);
    }
  }

  /**
   * No edit boundary falls inside a surrogate pair: neither end of the
   * replaced range in the old text, nor either end of the inserted range in
   * the new text.
   */
  lemma AnchorDiffKeepsPairs(oldText: Text, newText: Text)
    ensures AnchorDiff(oldText, newText).Some? ==>
      var c := AnchorDiff(oldText, newText).value;
      !SplitsPair(oldText, c.from) && !SplitsPair(oldText, c.to) &&
      !SplitsPair(newText, c.from) && !SplitsPair(newText, c.from + |c.insert|)
  {
    KeptPrefixFacts(oldText, newText);
    KeptSuffixFacts(oldText, newText);
  }
}
