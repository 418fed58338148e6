/** Byte-level text helpers shared by the three frame readers. */
module FrameText {
  import opened Wrappers
  import opened Decimal
  import opened TextSearch

  type Byte = b: int | 0 <= b < 256
  type Bytes = seq<Byte>

  const CR: Byte := 13
  const LF: Byte := 10
  const COLON: Byte := 58
  const BLANK_LINE: Bytes := [CR, LF, CR, LF]
  /** The bytes of "content-length". */
  const NAME: Bytes := [99, 111, 110, 116, 101, 110, 116, 45, 108, 101, 110, 103, 116, 104]
  /** The bytes of "Content-Length: ". */
  const PREFIX: Bytes := [67, 111, 110, 116, 101, 110, 116, 45, 76, 101, 110, 103, 116, 104, 58, 32]

  /** Content-Length, the byte count in decimal, a blank line, the body. */
  function Header(n: nat): Bytes {
    PREFIX + Dec(n) + BLANK_LINE
  }

  function Encode(body: Bytes): Bytes {
    Header(|body|) + body
  }

  predicate BlankAt(buf: Bytes, k: nat) {
    k + 4 <= |buf| && buf[k] == CR && buf[k + 1] == LF && buf[k + 2] == CR && buf[k + 3] == LF
  }

  /** Index of the first blank line at or after i. */
  function FindBlank(buf: Bytes, i: nat): (r: Option<nat>)
    ensures r.Some? ==> i <= r.value && BlankAt(buf, r.value)
    ensures r.Some? ==> forall k | i <= k < r.value :: !BlankAt(buf, k)
    ensures r.None? ==> forall k | i <= k :: !BlankAt(buf, k)
    decreases |buf| - i
  {
    if i + 4 > |buf| then None
    else if BlankAt(buf, i) then Some(i)
    else FindBlank(buf, i + 1)
  }

  function Lower(c: int): int {
    if 65 <= c <= 90 then c + 32 else c
  }

  predicate EqualsIgnoreCase(a: seq<int>, b: seq<int>) {
    |a| == |b| && forall k | 0 <= k < |a| :: Lower(a[k]) == Lower(b[k])
  }

  /** White space of Rust's and JavaScript's trim among ASCII bytes. */
  const AsciiSpace: int -> bool := c => 9 <= c <= 13 || c == 32
  /** White space of Java's trim. */
  const JavaSpace: int -> bool := c => c <= 32

  lemma TrimDigits(d: seq<int>, ws: int -> bool)
    requires AllDigits(d) && |d| >= 1
    requires ws(32) && forall c | IsDigit(c) :: !ws(c)
    ensures Trim([32] + d, ws) == d
  {
    assert ([32] + d)[1..] == d;
    assert IsDigit(d[0]) && IsDigit(d[|d| - 1]);
  }

  /** A name that neither starts nor ends with white space trims to itself. */
  lemma TrimName(ws: int -> bool)
    requires !ws(67) && !ws(104)
    ensures Trim(PREFIX[..14], ws) == PREFIX[..14]
    ensures EqualsIgnoreCase(PREFIX[..14], NAME)
  {
  }

  // ---- where a header ends ----

  /** The blank line of an encoded frame is found at the end of its header, in every buffer
      that starts with the header, and in no shorter prefix. */
  lemma HeaderEnd(n: nat, rest: Bytes)
    ensures FindBlank(Header(n) + rest, 0) == Some(|Header(n)| - 4)
  {
    var buf := Header(n) + rest;
    var e := |Header(n)| - 4;
    assert BlankAt(buf, e);
    forall k | 0 <= k < e
      ensures !BlankAt(buf, k)
    {
      NoCrBefore(n, k);
      assert buf[k] == Header(n)[k];
    }
  }

  lemma NoCrBefore(n: nat, k: nat)
    requires k < |Header(n)| - 4
    ensures Header(n)[k] != CR && Header(n)[k] != LF
  {
    if k >= 16 {
      assert Header(n)[k] == Dec(n)[k - 16];
    }
  }

  lemma PrefixBytes()
    ensures forall k | 0 <= k < |PREFIX| :: PREFIX[k] < 128
  {
  }

  lemma HeaderBytes(n: nat)
    ensures forall k | 0 <= k < |Header(n)| :: Header(n)[k] < 128
  {
    PrefixBytes();
    var p: Bytes, d: Bytes := PREFIX, Dec(n);
    forall k | 0 <= k < |Header(n)|
      ensures Header(n)[k] < 128
    {
      if k < |p| {
        assert Header(n)[k] == p[k];
      } else if k < |p| + |d| {
        assert Header(n)[k] == d[k - |p|] == Dec(n)[k - |p|];
      } else {
        assert Header(n)[k] == BLANK_LINE[k - |p| - |d|];
      }
    }
  }

  lemma NoHeaderYet(n: nat, p: Bytes)
    requires p <= Header(n) && |p| < |Header(n)|
    ensures FindBlank(p, 0) == None
  {
    forall k: nat
      ensures !BlankAt(p, k)
    {
      if k + 4 <= |p| {
        NoCrBefore(n, k);
        assert p[k] == Header(n)[k];
      }
    }
  }

  lemma HeaderLength(n: nat)
    requires n <= 0x400_0000
    ensures |Header(n)| <= 28
  {
    assert PowTen(8) == 100_000_000 by {
      assert PowTen(4) == 10_000;
    }
    DecLength(n, 8, 100_000_000);
  }
}
