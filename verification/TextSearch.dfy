/** Searching and trimming in sequences of character codes. */
module TextSearch {
  import opened Wrappers

  function IndexOf(s: seq<int>, c: int): (r: Option<nat>)
    ensures r.Some? ==> r.value < |s| && s[r.value] == c && c !in s[..r.value]
    ensures r.None? ==> c !in s
  {
    if s == [] then None
    else if s[0] == c then Some(0)
    else match IndexOf(s[1..], c) case None => None case Some(k) => Some(k + 1)
  }

  lemma {:induction false} IndexOfIs(s: seq<int>, c: int, k: nat)
    requires k < |s| && s[k] == c && c !in s[..k]
    ensures IndexOf(s, c) == Some(k)
  {
    if k > 0 {
      assert s[0] in s[..k];
      assert s[..k][1..] == s[1..][..k - 1];
      IndexOfIs(s[1..], c, k - 1);
    }
  }

  function LastIndexOf(s: seq<int>, c: int): (r: Option<nat>)
    ensures r.Some? ==> r.value < |s| && s[r.value] == c && c !in s[r.value + 1..]
    ensures r.None? ==> c !in s
  {
    if s == [] then None
    else if s[|s| - 1] == c then Some(|s| - 1)
    else LastIndexOf(s[..|s| - 1], c)
  }

  lemma {:induction false} LastIndexOfIs(s: seq<int>, c: int, k: nat)
    requires k < |s| && s[k] == c && c !in s[k + 1..]
    ensures LastIndexOf(s, c) == Some(k)
  {
    if k < |s| - 1 {
      assert s[|s| - 1] in s[k + 1..];
      assert s[..|s| - 1][k + 1..] == s[k + 1..][..|s| - k - 2];
      LastIndexOfIs(s[..|s| - 1], c, k);
    }
  }

  lemma {:induction false} LastIndexOfAtLeast(s: seq<int>, c: int, k: nat)
    requires k < |s| && s[k] == c
    ensures LastIndexOf(s, c).Some? && LastIndexOf(s, c).value >= k
  {
    if s[|s| - 1] != c {
      LastIndexOfAtLeast(s[..|s| - 1], c, k);
    }
  }

  /** Strip leading and trailing characters of the white-space set. */
  function Trim(s: seq<int>, ws: int -> bool): (t: seq<int>)
    ensures forall k | 0 <= k < |t| :: t[k] in s
    decreases |s|
  {
    if s != [] && ws(s[0]) then Trim(s[1..], ws)
    else if s != [] && ws(s[|s| - 1]) then Trim(s[..|s| - 1], ws)
    else s
  }
}
