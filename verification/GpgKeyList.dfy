/**
 * The column shortener used when listing GPG public keys: a key too wide for its
 * column keeps its beginning and its end and loses its middle to "...".
 */
module GpgKeyList {

  const Ellipsis: string := "..."

  /** `r` is `t` with a middle run replaced by "...", keeping a head at most one
    * character longer than the tail. */
  ghost predicate MiddleElided(t: string, r: string)
  {
    exists head: nat, tail: nat :: ElidedAs(t, r, head, tail)
  }

  /** `r` keeps the first `head` and the last `tail` characters of `t`. */
  predicate ElidedAs(t: string, r: string, head: nat, tail: nat)
  {
    && tail <= head <= tail + 1
    && head + tail <= |t|
    && r == t[..head] + Ellipsis + t[|t| - tail..]
  }

  /** Shortens `t` to at most `maxWidth` characters; a negative width would slice
    * out of range, so the width is a natural number. */
  function TruncateMiddle(maxWidth: nat, t: string): (r: string)
    ensures |t| <= maxWidth ==> r == t
    ensures |t| > maxWidth && maxWidth < |Ellipsis| + 2 ==> r == t[..maxWidth]
    ensures |t| > maxWidth ==> |r| == maxWidth
    ensures |t| > maxWidth >= |Ellipsis| + 2 ==> MiddleElided(t, r)
  {
    if |t| <= maxWidth then t
    else if maxWidth < |Ellipsis| + 2 then t[..maxWidth]
    else
      var halfWidth := (maxWidth - |Ellipsis|) / 2;
      var remainder := (maxWidth - |Ellipsis|) % 2;
      var r := t[..halfWidth + remainder] + Ellipsis + t[|t| - halfWidth..];
      assert ElidedAs(t, r, halfWidth + remainder, halfWidth);
      r
  }

  /** The result never exceeds the column and never loses characters needlessly. */
  lemma TruncateMiddleWidth(maxWidth: nat, t: string)
    ensures |TruncateMiddle(maxWidth, t)| == if |t| <= maxWidth then |t| else maxWidth
  {
  }

  /** Shortening is idempotent: a shortened key already fits its column. */
  lemma TruncateMiddleIdempotent(maxWidth: nat, t: string)
    ensures TruncateMiddle(maxWidth, TruncateMiddle(maxWidth, t)) == TruncateMiddle(maxWidth, t)
  {
  }

  /** The middle-elision shape of a given width is unique: head and tail lengths
    * are determined by the width, so `TruncateMiddle` is the only such result. */
  lemma {:induction false} ElisionUnique(maxWidth: nat, t: string, r: string)
    requires |t| > maxWidth >= |Ellipsis| + 2
    requires MiddleElided(t, r) && |r| == maxWidth
    ensures r == TruncateMiddle(maxWidth, t)
  {
    var head: nat, tail: nat :| ElidedAs(t, r, head, tail);
    assert head + tail + 3 == maxWidth;
    assert tail == (maxWidth - 3) / 2;
    assert head == tail + (maxWidth - 3) % 2;
  }

  /** A width too small for an ellipsis keeps only the beginning of the key. */
  lemma NarrowKeepsPrefix(maxWidth: nat, t: string)
    requires maxWidth < |Ellipsis| + 2
    ensures TruncateMiddle(maxWidth, t) <= t
  {
  }

  lemma Example()
    ensures TruncateMiddle(7, "ABCDEFGHIJ") == "AB...IJ"
    ensures TruncateMiddle(8, "ABCDEFGHIJ") == "ABC...IJ"
    ensures TruncateMiddle(4, "ABCDEFGHIJ") == "ABCD"
    ensures TruncateMiddle(10, "ABCDEFGHIJ") == "ABCDEFGHIJ"
  {
    var t := "ABCDEFGHIJ";
    assert t[..2] == "AB" && t[8..] == "IJ" && t[..3] == "ABC" && t[..4] == "ABCD";
    assert TruncateMiddle(7, t) == t[..2] + Ellipsis + t[8..];
    assert TruncateMiddle(8, t) == t[..3] + Ellipsis + t[8..];
  }
}
