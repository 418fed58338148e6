/** The lock file names of endpoints, and the decoder that shows no two endpoints share one. */
module LockName {
  import opened Wrappers
  import opened Decimal
  import opened TextSearch

  type Byte = b: int | 0 <= b < 256

  const UNDERSCORE: Byte := 95
  const HYPHEN: Byte := 45
  const LOCK: seq<Byte> := [46, 108, 111, 99, 107]

  predicate IsAlnum(b: int) {
    48 <= b <= 57 || 65 <= b <= 90 || 97 <= b <= 122
  }

  /** A lower-case hexadecimal digit. */
  function Hex(n: nat): Byte
    requires n < 16
  {
    if n < 10 then 48 + n else 87 + n
  }

  function Unhex(b: Byte): nat {
    if 48 <= b <= 57 then b - 48 else if 97 <= b <= 102 then b - 87 else 0
  }

  function EscapeByte(b: Byte): seq<Byte> {
    if IsAlnum(b) then [b]
    else if b == UNDERSCORE then [UNDERSCORE, UNDERSCORE]
    else [UNDERSCORE, Hex(b / 16), Hex(b % 16)]
  }

  function Escape(host: seq<Byte>): (r: seq<Byte>)
    ensures HYPHEN !in r
  {
    if host == [] then [] else EscapeByte(host[0]) + Escape(host[1..])
  }

  method EscapeHost(host: seq<Byte>) returns (safe: seq<Byte>)
    ensures safe == Escape(host)
  {
    safe := [];
    for n := 0 to |host|
      invariant safe + Escape(host[n..]) == Escape(host)
    {
      var b := host[n];
      assert host[n..][1..] == host[n + 1..];
      assert (safe + EscapeByte(b)) + Escape(host[n + 1..]) == safe + Escape(host[n..]);
      if IsAlnum(b) {
        safe := safe + [b];
      } else if b == UNDERSCORE {
        safe := safe + [UNDERSCORE, UNDERSCORE];
      } else {
        safe := safe + [UNDERSCORE, Hex(b / 16), Hex(b % 16)];
      }
    }
  }

  /** `lang-host-port.lock` */
  function LockName(lang: seq<Byte>, host: seq<Byte>, port: nat): seq<Byte> {
    lang + [HYPHEN] + Escape(host) + [HYPHEN] + Digits(port) + LOCK
  }

  // ---- reading a name back ----

  function Unescape(s: seq<Byte>): seq<Byte> {
    if s == [] then []
    else if s[0] != UNDERSCORE || |s| == 1 then [s[0]] + Unescape(s[1..])
    else if s[1] == UNDERSCORE || |s| == 2 then [UNDERSCORE] + Unescape(s[2..])
    else [Unhex(s[1]) * 16 + Unhex(s[2])] + Unescape(s[3..])
  }

  datatype Endpoint = Endpoint(lang: seq<Byte>, host: seq<Byte>, port: nat)

  /** The host is what lies between the last two hyphens. */
  function ReadName(name: seq<Byte>): Option<Endpoint> {
    if |name| < |LOCK| then None
    else
      var stem := name[..|name| - |LOCK|];
      match LastIndexOf(stem, HYPHEN)
      case None => None
      case Some(j) =>
        match LastIndexOf(stem[..j], HYPHEN)
        case None => None
        case Some(i) =>
          if !AllDigits(stem[j + 1..]) then None
          else Some(Endpoint(stem[..i], Unescape(stem[i + 1..j]), Value(stem[j + 1..])))
  }

  lemma UnescapeByte(b: Byte, rest: seq<Byte>)
    ensures Unescape(EscapeByte(b) + rest) == [b] + Unescape(rest)
  {
    var s := EscapeByte(b) + rest;
    if IsAlnum(b) {
      assert s[1..] == rest;
    } else if b == UNDERSCORE {
      assert s[2..] == rest;
    } else {
      assert s[3..] == rest;
      assert Unhex(Hex(b / 16)) == b / 16 && Unhex(Hex(b % 16)) == b % 16;
    }
  }

  /** Every byte string survives the escaping. */
  lemma {:induction false} EscapeRoundTrip(host: seq<Byte>)
    ensures Unescape(Escape(host)) == host
  {
    if host != [] {
      UnescapeByte(host[0], Escape(host[1..]));
      EscapeRoundTrip(host[1..]);
    }
  }

  /** The last hyphen of a text whose tail has none. */
  lemma CutAtHyphen(front: seq<Byte>, tail: seq<Byte>)
    requires HYPHEN !in tail
    ensures var s := front + [HYPHEN] + tail;
            LastIndexOf(s, HYPHEN) == Some(|front|) && s[..|front|] == front && s[|front| + 1..] == tail
  {
    var s := front + [HYPHEN] + tail;
    assert s[|front| + 1..] == tail;
    LastIndexOfIs(s, HYPHEN, |front|);
  }

  lemma DigitsHaveNoHyphen(n: nat)
    ensures HYPHEN !in Digits(n) && AllDigits(Digits(n)) && Value(Digits(n)) == n
  {
    var d := Dec(n);
    assert forall k | 0 <= k < |d| :: IsDigit(d[k]);
    ValueOfDec(n);
  }

  /** A lock file name gives back its language, host and port: for every language, every host
      of arbitrary bytes and every port. */
  lemma NameRoundTrip(lang: seq<Byte>, host: seq<Byte>, port: nat)
    ensures ReadName(LockName(lang, host, port)) == Some(Endpoint(lang, host, port))
  {
    hide Escape, Unescape, Digits, LastIndexOf, AllDigits, Value;
    var safe, d := Escape(host), Digits(port);
    var front := lang + [HYPHEN] + safe;
    var name := LockName(lang, host, port);
    assert name[..|name| - |LOCK|] == front + [HYPHEN] + d;
    DigitsHaveNoHyphen(port);
    CutAtHyphen(front, d);
    CutAtHyphen(lang, safe);
    StemSlices(lang, safe, d);
    EscapeRoundTrip(host);
  }

  lemma StemSlices(lang: seq<Byte>, safe: seq<Byte>, d: seq<Byte>)
    ensures var front := lang + [HYPHEN] + safe; var stem := front + [HYPHEN] + d;
            stem[..|lang|] == lang && stem[|lang| + 1..|front|] == safe
  {
  }

  /** Two endpoints share a lock file only if they are the same endpoint. */
  lemma NamesDiffer(a: Endpoint, b: Endpoint)
    ensures LockName(a.lang, a.host, a.port) == LockName(b.lang, b.host, b.port) <==> a == b
  {
    NameRoundTrip(a.lang, a.host, a.port);
    NameRoundTrip(b.lang, b.host, b.port);
  }
}
