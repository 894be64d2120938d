/** `crates/ids/src/kafka_uuid.rs`: the base64url form of a 128-bit id, in the
    alphabet of section 5 of RFC 4648, decoded as the JDK decodes it. */
module KafkaUuids {
  import opened Base

  const UUID_LEN: nat := 16
  const MAX_ENCODED_LEN: nat := 24
  const PAD: byte := 61

  type sextet = v: int | 0 <= v < 64

  type Id = b: seq<byte> | |b| == 16 witness seq(16, _ => 0)

  datatype UuidError =
    | TooLong
    | TooShort
    | IllegalCharacter(b: byte)
    | WrongEndingUnit
    | LastUnitTooShort
    | IncorrectEndingByte(position: nat)
    | WrongLength(decoded: nat)

  // ----- the alphabet -----

  function UrlValue(b: byte): (v: Option<sextet>)
  {
    if 65 <= b <= 90 then Some(b - 65)
    else if 97 <= b <= 122 then Some(b - 97 + 26)
    else if 48 <= b <= 57 then Some(b - 48 + 52)
    else if b == 45 then Some(62)
    else if b == 95 then Some(63)
    else None
  }

  function UrlByte(v: sextet): (b: byte)
    ensures UrlValue(b) == Some(v)
  {
    if v < 26 then v + 65
    else if v < 52 then v - 26 + 97
    else if v < 62 then v - 52 + 48
    else if v == 62 then 45
    else 95
  }

  const UPPER: string := "ABCDEFGHIJKLMNOPQRSTUVWXYZ"
  const LOWER: string := "abcdefghijklmnopqrstuvwxyz"
  const MARKS: string := "0123456789-_"

  /** The URL-safe alphabet of section 5 of RFC 4648, in the order of the values. */
  const ALPHABET: string := UPPER + LOWER + MARKS

  lemma UpperIs(v: nat)
    requires v < 26
    ensures |UPPER| == 26 && UPPER[v] as int == v + 65
  {
  }

  lemma LowerIs(v: nat)
    requires v < 26
    ensures |LOWER| == 26 && LOWER[v] as int == v + 97
  {
  }

  lemma MarksAre(v: nat)
    requires v < 12
    ensures |MARKS| == 12 && MARKS[v] as int == if v < 10 then v + 48 else if v == 10 then 45 else 95
  {
  }

  /** A character stands for its place in the alphabet, and no other character is accepted. */
  lemma ValueIsPlace(c: char, v: sextet)
    requires c as int < 256
    ensures |ALPHABET| == 64
    ensures UrlValue(c as int) == Some(v) <==> ALPHABET[v] == c
    ensures UrlByte(v) == ALPHABET[v] as int
  {
    UpperIs(if v < 26 then v else 0);
    LowerIs(if 26 <= v < 52 then v - 26 else 0);
    MarksAre(if v >= 52 then v - 52 else 0);
  }

  lemma AcceptedIffListed(c: char)
    requires c as int < 256
    ensures UrlValue(c as int).Some? <==> c in ALPHABET
  {
    if UrlValue(c as int).Some? { ValueIsPlace(c, UrlValue(c as int).value); }
    if c in ALPHABET {
      var v :| 0 <= v < |ALPHABET| && ALPHABET[v] == c;
      ValueIsPlace(c, v);
    }
  }

  lemma UrlValueInjective(a: byte, b: byte)
    requires UrlValue(a).Some? && UrlValue(a) == UrlValue(b)
    ensures a == b
  {
  }

  predicate AllUrl(s: seq<byte>)
  {
    forall i :: 0 <= i < |s| ==> UrlValue(s[i]).Some?
  }

  function Values(s: seq<byte>): (r: seq<sextet>)
    requires AllUrl(s)
    ensures |r| == |s| && forall i :: 0 <= i < |s| ==> Some(r[i]) == UrlValue(s[i])
  {
    seq(|s|, i requires 0 <= i < |s| => UrlValue(s[i]).value)
  }

  // ----- sextets to octets -----

  /** The three octets of a 24-bit unit. */
  function Octets(bits: nat): (r: seq<byte>)
    requires bits < 0x100_0000
    ensures |r| == 3
  {
    [bits / 65536, bits / 256 % 256, bits % 256]
  }

  function At(vs: seq<sextet>, i: nat): int { if i < |vs| then vs[i] else 0 }

  /** The high bits of a unit that sextets have filled from the top. */
  function Unit(vs: seq<sextet>): (bits: nat)
    ensures bits < 0x100_0000
  {
    At(vs, 0) * 0x4_0000 + At(vs, 1) * 4096 + At(vs, 2) * 64 + At(vs, 3)
  }

  /** The octets of a unit that the input leaves open: two sextets make one, three
      make two, and the trailing bits are ignored. */
  function Tail(part: seq<sextet>): seq<byte>
  {
    if |part| == 2 then Octets(Unit(part))[..1] else if |part| == 3 then Octets(Unit(part))[..2] else []
  }

  function FullUnit(vs: seq<sextet>): seq<byte> { Octets(Unit(vs)) }

  /** `vs` in groups of four, and a last group of fewer. */
  function InFours<A, B>(full: seq<A> -> seq<B>, last: seq<A> -> seq<B>, vs: seq<A>): seq<B>
  {
    if |vs| >= 4 then full(vs[..4]) + InFours(full, last, vs[4..]) else last(vs)
  }

  lemma {:induction false} InFoursAppend<A, B>(full: seq<A> -> seq<B>, last: seq<A> -> seq<B>, a: seq<A>, b: seq<A>)
    requires |a| % 4 == 0 && last([]) == []
    ensures InFours(full, last, a + b) == InFours(full, last, a) + InFours(full, last, b)
    decreases |a|
  {
    if a == [] {
      assert a + b == b;
    } else {
      InFoursAppend(full, last, a[4..], b);
      assert (a + b)[..4] == a[..4] && (a + b)[4..] == a[4..] + b;
    }
  }

  /** Four sextets make three octets. */
  function Pack(vs: seq<sextet>): seq<byte> { InFours(FullUnit, Tail, vs) }

  lemma PackAppend(a: seq<sextet>, b: seq<sextet>)
    requires |a| % 4 == 0
    ensures Pack(a + b) == Pack(a) + Pack(b)
  {
    InFoursAppend(FullUnit, Tail, a, b);
  }

  // ----- decoding -----

  /** How many alphabet characters the input starts with. */
  function UrlPrefix(s: seq<byte>): (n: nat)
    ensures n <= |s| && AllUrl(s[..n])
    ensures n < |s| ==> UrlValue(s[n]).None?
  {
    if s == [] || UrlValue(s[0]).None? then 0
    else
      assert forall i :: 1 <= i <= UrlPrefix(s[1..]) ==> s[i] == s[1..][i - 1];
      1 + UrlPrefix(s[1..])
  }

  /** Where a complete padding ends, if the data is `n` characters long. */
  function PadEnd(s: seq<byte>, n: nat): Option<nat>
    requires n <= |s|
  {
    if n == |s| then Some(n)
    else if s[n] != PAD || n % 4 == 0 then None
    else if n % 4 != 2 then Some(n + 1)
    else if n + 1 < |s| && s[n + 1] == PAD then Some(n + 2)
    else None
  }

  /** The verdict on an input whose data is `n` characters long. */
  function Finish(s: seq<byte>, n: nat, decoded: seq<byte>): Result<seq<byte>, UuidError>
    requires n <= |s|
  {
    if |s| == 1 then Err(TooShort)
    else if n < |s| && s[n] != PAD then Err(IllegalCharacter(s[n]))
    else if PadEnd(s, n).None? then Err(WrongEndingUnit)
    else if n % 4 == 1 then Err(LastUnitTooShort)
    else if PadEnd(s, n).value < |s| then Err(IncorrectEndingByte(PadEnd(s, n).value))
    else Ok(decoded)
  }

  /** The data, its padding, and nothing after it. */
  function Decode(s: seq<byte>): Result<seq<byte>, UuidError>
  {
    var n := UrlPrefix(s);
    Finish(s, n, Pack(Values(s[..n])))
  }

  /** Each error by the shape of the input, whose first `n` characters are of the alphabet and
      whose next one, if any, is not. */
  lemma WhyRefused(s: seq<byte>, n: nat, b: byte, at: nat)
    requires |s| != 1 && n <= |s| && AllUrl(s[..n]) && (n < |s| ==> UrlValue(s[n]).None?)
    ensures Decode(s) == Err(IllegalCharacter(b)) <==> n < |s| && s[n] == b && b != 61
    ensures Decode(s) == Err(WrongEndingUnit) <==>
              n < |s| && s[n] == 61 && (n % 4 == 0 || (n % 4 == 2 && (n + 1 == |s| || s[n + 1] != 61)))
    ensures Decode(s) == Err(LastUnitTooShort) <==> n % 4 == 1 && (n < |s| ==> s[n] == 61)
    ensures Decode(s) == Err(IncorrectEndingByte(at)) <==>
              && n < |s| && s[n] == 61 && at < |s|
              && ((n % 4 == 3 && at == n + 1) || (n % 4 == 2 && n + 1 < |s| && s[n + 1] == 61 && at == n + 2))
    ensures Decode(s) != Err(TooShort)
  {
    PrefixIs(s, n);
  }

  function Weight(shift: int): nat
  {
    if shift == 18 then 0x4_0000 else if shift == 12 then 4096 else if shift == 6 then 64 else 1
  }

  /** The loop's state once it has read `head + part`: complete units are written
      out, and `part` fills the next one. */
  ghost predicate Filling(head: seq<sextet>, part: seq<sextet>, dst: seq<byte>, bits: nat, shift: int)
  {
    && |head| % 4 == 0 && |part| < 4 && shift == 18 - 6 * |part|
    && dst == Pack(head) && bits == Unit(part)
  }

  lemma FillUnit(vs: seq<sextet>, v: sextet)
    requires |vs| < 4
    ensures Unit(vs + [v]) == Unit(vs) + v * Weight(18 - 6 * |vs|)
  {
  }

  lemma PackUnit(vs: seq<sextet>)
    requires |vs| == 4
    ensures Pack(vs) == Octets(Unit(vs))
  {
    assert vs[..4] == vs && vs[4..] == [] && Pack([]) == [];
  }

  /** A fourth sextet completes the unit. */
  lemma CloseUnit(head: seq<sextet>, part: seq<sextet>, v: sextet)
    requires |head| % 4 == 0 && |part| == 3
    ensures Pack(head + part + [v]) == Pack(head) + Octets(Unit(part + [v]))
    ensures |head + part + [v]| % 4 == 0
  {
    assert head + part + [v] == head + (part + [v]);
    PackAppend(head, part + [v]);
    PackUnit(part + [v]);
  }

  lemma LastUnit(head: seq<sextet>, part: seq<sextet>)
    requires |head| % 4 == 0 && |part| < 4
    ensures Pack(head + part) == Pack(head) + Tail(part)
    ensures Pack(head) + [] == Pack(head)
  {
    PackAppend(head, part);
  }

  lemma {:induction false} PrefixIs(s: seq<byte>, n: nat)
    requires n <= |s| && AllUrl(s[..n]) && (n < |s| ==> UrlValue(s[n]).None?)
    ensures UrlPrefix(s) == n
  {
    if n > 0 {
      assert UrlValue(s[..n][0]).Some?;
      assert s[1..][..n - 1] == s[..n][1..];
      PrefixIs(s[1..], n - 1);
    }
  }

  /** One alphabet character of the loop below. Each sextet fills bits that are still
      clear, so the source's `|=` is addition. */
  method Feed(v: sextet, dst: seq<byte>, bits: nat, shiftTo: int, ghost head: seq<sextet>, ghost part: seq<sextet>)
    returns (dst': seq<byte>, bits': nat, shiftTo': int, ghost head': seq<sextet>, ghost part': seq<sextet>)
    requires Filling(head, part, dst, bits, shiftTo)
    ensures Filling(head', part', dst', bits', shiftTo') && head' + part' == head + part + [v]
  {
    FillUnit(part, v);
    dst', bits', shiftTo' := dst, bits + v * Weight(shiftTo), shiftTo - 6;
    head', part' := head, part + [v];
    if shiftTo' < 0 {
      CloseUnit(head, part, v);
      dst' := dst' + Octets(bits');
      shiftTo' := 18;
      bits' := 0;
      head', part' := head + part + [v], [];
    }
  }

  /** The `=` before `sp` ends the data; only `xx==` and `xxx=` are complete units. */
  method Padding(src: seq<byte>, sp: nat, shiftTo: int) returns (end: nat, complete: bool)
    requires 0 < sp <= |src| && src[sp - 1] == PAD && shiftTo == 18 - 6 * ((sp - 1) % 4)
    ensures PadEnd(src, sp - 1) == if complete then Some(end) else None
    ensures end <= |src|
  {
    end := sp;
    var secondPadMissing := false;
    if shiftTo == 6 {
      secondPadMissing := true;
      if sp < |src| {
        secondPadMissing := src[sp] != PAD;
        end := sp + 1;
      }
    }
    complete := !(secondPadMissing || shiftTo == 18);
  }

  /** `java_url_decode`. */
  method JavaUrlDecode(src: seq<byte>) returns (r: Result<seq<byte>, UuidError>)
    ensures r == Decode(src)
  {
    if |src| == 1 { return Err(TooShort); }
    var dst: seq<byte>, bits: nat, shiftTo, sp := [], 0, 18, 0;
    ghost var n, head: seq<sextet>, part: seq<sextet> := 0, [], [];
    while sp < |src|
      invariant n == sp <= |src| && AllUrl(src[..n]) && head + part == Values(src[..n])
      invariant Filling(head, part, dst, bits, shiftTo)
    {
      var b := src[sp];
      sp := sp + 1;
      if UrlValue(b).Some? {
        var v := UrlValue(b).value;
        ValuesStep(src, n, head + part, v);
        n := n + 1;
        dst, bits, shiftTo, head, part := Feed(v, dst, bits, shiftTo, head, part);
        continue;
      }
      PrefixIs(src, n);
      if b != PAD { return Err(IllegalCharacter(b)); }
      assert n % 4 == |part|;
      var complete := false;
      sp, complete := Padding(src, sp, shiftTo);
      if !complete { return Err(WrongEndingUnit); }
      break;
    }
    PrefixIs(src, n);
    LastUnit(head, part);
    assert n % 4 == |part| && PadEnd(src, n) == Some(sp);
    r := Close(dst, bits, shiftTo, sp, |src|, part);
  }

  /** The end of the loop's unit, and of the input. */
  method Close(dst: seq<byte>, bits: nat, shiftTo: int, sp: nat, len: nat, ghost part: seq<sextet>)
    returns (r: Result<seq<byte>, UuidError>)
    requires |part| < 4 && bits == Unit(part) && shiftTo == 18 - 6 * |part| && sp <= len
    ensures r == if |part| == 1 then Err(LastUnitTooShort)
                 else if sp < len then Err(IncorrectEndingByte(sp)) else Ok(dst + Tail(part))
  {
    var out := dst;
    if shiftTo == 6 { out := dst + Octets(bits)[..1]; }
    else if shiftTo == 0 { out := dst + Octets(bits)[..2]; }
    else if shiftTo == 12 { return Err(LastUnitTooShort); }
    else { assert dst == dst + []; }
    if sp < len { return Err(IncorrectEndingByte(sp)); }
    return Ok(out);
  }

  lemma ValuesStep(s: seq<byte>, n: nat, vs: seq<sextet>, v: sextet)
    requires n < |s| && AllUrl(s[..n]) && vs == Values(s[..n]) && UrlValue(s[n]) == Some(v)
    ensures AllUrl(s[..n + 1]) && vs + [v] == Values(s[..n + 1])
  {
  }

  // ----- strings -----

  function IsUrlChar(c: char): bool { c as int < 256 && UrlValue(c as int).Some? }

  function Latin1Byte(c: char): byte { if c as int < 256 then c as int else 63 }

  /** `String.getBytes(ISO_8859_1)`: one byte per character, and `?` above U+00FF. */
  function Latin1(s: Str): (r: seq<byte>)
    ensures |r| == |s| && forall i :: 0 <= i < |s| ==> r[i] == Latin1Byte(s[i])
  {
    seq(|s|, i requires 0 <= i < |s| => Latin1Byte(s[i]))
  }

  /** The length of a Java string, in UTF-16 code units. */
  function Utf16Len(s: Str): (n: nat)
    ensures n >= |s|
    ensures (forall i :: 0 <= i < |s| ==> s[i] as int < 256) ==> n == |s|
  {
    if s == [] then 0 else (if s[0] as int < 0x1_0000 then 1 else 2) + Utf16Len(s[1..])
  }

  /** `FromStr`. */
  function Parse(s: Str): Result<Id, UuidError>
  {
    if Utf16Len(s) > MAX_ENCODED_LEN then Err(TooLong)
    else
      var decoded :- Decode(Latin1(s));
      if |decoded| == UUID_LEN then Ok(decoded) else Err(WrongLength(|decoded|))
  }

  // ----- printing -----

  /** Octets to sextets; a last group of one or two octets is filled with zero bits. */
  function Spread(bs: seq<byte>): (r: seq<sextet>)
    ensures |r| == |bs| / 3 * 4 + (if |bs| % 3 == 0 then 0 else |bs| % 3 + 1)
  {
    if |bs| >= 3 then
      [bs[0] / 4, bs[0] % 4 * 16 + bs[1] / 16, bs[1] % 16 * 4 + bs[2] / 64, bs[2] % 64] + Spread(bs[3..])
    else if |bs| == 2 then [bs[0] / 4, bs[0] % 4 * 16 + bs[1] / 16, bs[1] % 16 * 4]
    else if |bs| == 1 then [bs[0] / 4, bs[0] % 4 * 16]
    else []
  }

  /** `Display`. */
  function Print(id: Id): (s: Str)
    ensures |s| == 22
  {
    var vs := Spread(id);
    seq(|vs|, i requires 0 <= i < |vs| => UrlByte(vs[i]) as char)
  }

  lemma OctetsOf(a: byte, b: byte, c: byte, bits: int)
    requires bits == a * 65536 + b * 256 + c
    ensures Octets(bits) == [a, b, c]
  {
    assert bits / 65536 == a;
    assert bits / 256 == a * 256 + b;
    assert bits / 256 % 256 == b;
  }

  lemma Regroup(a: int, b: int, c: int)
    ensures a / 4 * 0x4_0000 + (a % 4 * 16 + b / 16) * 4096 + (b % 16 * 4 + c / 64) * 64 + c % 64
         == a * 65536 + b * 256 + c
  {
    assert a == a / 4 * 4 + a % 4 && b == b / 16 * 16 + b % 16 && c == c / 64 * 64 + c % 64;
  }

  lemma UnitOfThree(a: byte, b: byte, c: byte)
    ensures Octets(Unit([a / 4, a % 4 * 16 + b / 16, b % 16 * 4 + c / 64, c % 64])) == [a, b, c]
  {
    Regroup(a, b, c);
    OctetsOf(a, b, c, Unit([a / 4, a % 4 * 16 + b / 16, b % 16 * 4 + c / 64, c % 64]));
  }

  lemma UnitOfOne(a: byte)
    ensures Tail([a / 4, a % 4 * 16]) == [a]
  {
    Regroup(a, 0, 0);
    OctetsOf(a, 0, 0, Unit([a / 4, a % 4 * 16]));
  }

  lemma UnitOfTwo(a: byte, b: byte)
    ensures Tail([a / 4, a % 4 * 16 + b / 16, b % 16 * 4]) == [a, b]
  {
    Regroup(a, b, 0);
    OctetsOf(a, b, 0, Unit([a / 4, a % 4 * 16 + b / 16, b % 16 * 4]));
  }

  lemma PackFirst(u: seq<sextet>, rest: seq<sextet>)
    requires |u| == 4
    ensures Pack(u + rest) == Octets(Unit(u)) + Pack(rest)
  {
    assert (u + rest)[..4] == u && (u + rest)[4..] == rest;
  }

  lemma {:induction false} PackSpread(bs: seq<byte>)
    ensures Pack(Spread(bs)) == bs
    decreases |bs|
  {
    if |bs| >= 3 {
      var u := [bs[0] / 4, bs[0] % 4 * 16 + bs[1] / 16, bs[1] % 16 * 4 + bs[2] / 64, bs[2] % 64];
      UnitOfThree(bs[0], bs[1], bs[2]);
      PackSpread(bs[3..]);
      assert Spread(bs) == u + Spread(bs[3..]);
      PackFirst(u, Spread(bs[3..]));
      assert bs == [bs[0], bs[1], bs[2]] + bs[3..];
    } else if |bs| == 2 {
      UnitOfTwo(bs[0], bs[1]);
    } else if |bs| == 1 {
      UnitOfOne(bs[0]);
    }
  }

  /** Four characters are the three octets they stand for, read as one number; so are the last
      two, with four bits to spare. */
  lemma SpreadKeepsTheNumber(a: byte, b: byte, c: byte, rest: seq<byte>)
    ensures var v: seq<int> := Spread([a, b, c] + rest);
            && |v| == 4 + |Spread(rest)| && v[4..] == Spread(rest)
            && v[0] * 0x4_0000 + v[1] * 4096 + v[2] * 64 + v[3] == a * 0x1_0000 + b * 256 + c
    ensures var v: seq<int> := Spread([a]);
            |v| == 2 && v[0] * 64 + v[1] == a * 16
  {
    var bs := [a, b, c] + rest;
    assert bs[3..] == rest;
    Regroup(a, b, c);
  }

  // ----- what is accepted -----

  /** Twenty-two characters of the alphabet, with or without `==`. */
  predicate Accepted(s: Str)
  {
    && (|s| == 22 || (|s| == 24 && s[22..] == "=="))
    && forall i :: 0 <= i < 22 ==> IsUrlChar(s[i])
  }

  lemma {:induction false} PackLength(vs: seq<sextet>)
    ensures |Pack(vs)| == |vs| / 4 * 3 + (if |vs| % 4 < 2 then 0 else |vs| % 4 - 1)
    decreases |vs|
  {
    if |vs| >= 4 { PackLength(vs[4..]); }
  }

  /** Sixteen octets come from twenty-two sextets only. */
  lemma SixteenOctets(vs: seq<sextet>)
    ensures |Pack(vs)| == 16 <==> |vs| == 22
  {
    PackLength(vs);
  }

  lemma AcceptedParses(s: Str)
    requires Accepted(s)
    ensures AllUrl(Latin1(s)[..22]) && |Pack(Values(Latin1(s)[..22]))| == UUID_LEN
    ensures Parse(s) == Ok(Pack(Values(Latin1(s)[..22])))
  {
    var bs := Latin1(s);
    assert |s| == 24 ==> s[22] == s[22..][0] && s[23] == s[22..][1];
    assert forall i :: 0 <= i < |s| ==> s[i] as int < 256;
    PrefixIs(bs, 22);
    SixteenOctets(Values(bs[..22]));
  }

  lemma ParsedIsAccepted(s: Str)
    requires Parse(s).Ok?
    ensures Accepted(s)
  {
    var bs := Latin1(s);
    var n := UrlPrefix(bs);
    SixteenOctets(Values(bs[..n]));
    assert n == 22;
    forall i | 0 <= i < 22 ensures IsUrlChar(s[i]) { assert UrlValue(bs[..n][i]).Some?; }
    if |s| != 22 { assert s[22..] == [s[22], s[23]]; }
  }

  /** Parsing accepts exactly those strings, over all strings. */
  lemma AcceptsExactly(s: Str)
    ensures Parse(s).Ok? <==> Accepted(s)
  {
    if Accepted(s) { AcceptedParses(s); }
    if Parse(s).Ok? { ParsedIsAccepted(s); }
  }

  /** Every id survives printing and parsing, with or without the padding. */
  lemma ParsePrint(id: Id)
    ensures Parse(Print(id)) == Ok(id) && Parse(Print(id) + "==") == Ok(id)
  {
    var s := Print(id);
    assert Latin1(s)[..22] == Latin1(s) && Latin1(s + "==")[..22] == Latin1(s);
    assert (s + "==")[22..] == "==";
    assert forall i :: 0 <= i < 22 ==> (s + "==")[i] == s[i];
    AcceptedParses(s);
    AcceptedParses(s + "==");
    assert Values(Latin1(s)) == Spread(id);
    PackSpread(id);
  }

  // ----- which strings name one id -----

  lemma SameDigits(a: sextet, b: sextet, c: sextet, d: sextet, a': sextet, b': sextet, c': sextet, d': sextet)
    requires a * 0x4_0000 + b * 4096 + c * 64 + d == a' * 0x4_0000 + b' * 4096 + c' * 64 + d'
    ensures a == a' && b == b' && c == c' && d == d'
  {
    assert a == a';
    assert b == b';
    assert c == c';
  }

  lemma OctetsInjective(x: nat, y: nat)
    requires x < 0x100_0000 && y < 0x100_0000 && Octets(x) == Octets(y)
    ensures x == y
  {
    assert Octets(x)[0] == Octets(y)[0] && Octets(x)[1] == Octets(y)[1] && Octets(x)[2] == Octets(y)[2];
    assert x == x / 65536 * 65536 + x / 256 % 256 * 256 + x % 256 by { assert x / 256 / 256 == x / 65536; }
    assert y == y / 65536 * 65536 + y / 256 % 256 * 256 + y % 256 by { assert y / 256 / 256 == y / 65536; }
  }

  lemma UnitInjective(u: seq<sextet>, v: seq<sextet>)
    requires |u| == |v| == 4 && Octets(Unit(u)) == Octets(Unit(v))
    ensures u == v
  {
    OctetsInjective(Unit(u), Unit(v));
    SameDigits(u[0], u[1], u[2], u[3], v[0], v[1], v[2], v[3]);
  }

  lemma TailOfTwo(u: seq<sextet>)
    requires |u| == 2
    ensures |Tail(u)| == 1 && Tail(u)[0] == At(u, 0) * 4 + At(u, 1) / 16
  {
    var x := Unit(u);
    assert x == At(u, 0) * 0x4_0000 + At(u, 1) * 4096;
    assert At(u, 1) == At(u, 1) / 16 * 16 + At(u, 1) % 16;
    assert x / 65536 == At(u, 0) * 4 + At(u, 1) / 16;
  }

  lemma TailInjective(u: seq<sextet>, v: seq<sextet>)
    requires |u| == |v| == 2
    ensures Tail(u) == Tail(v) <==> u[0] == v[0] && u[1] / 16 == v[1] / 16
  {
    TailOfTwo(u);
    TailOfTwo(v);
    assert Tail(u) == [Tail(u)[0]] && Tail(v) == [Tail(v)[0]];
  }

  lemma {:induction false} PackSame(u: seq<sextet>, v: seq<sextet>)
    requires |u| == |v| && |u| % 4 == 2
    ensures var last := |u| - 1;
            Pack(u) == Pack(v) <==> u[..last] == v[..last] && u[last] / 16 == v[last] / 16
    decreases |u|
  {
    var last := |u| - 1;
    if |u| == 2 {
      TailInjective(u, v);
    } else {
      PackSame(u[4..], v[4..]);
      assert Pack(u)[..3] == Octets(Unit(u[..4])) && Pack(u)[3..] == Pack(u[4..]);
      assert Pack(v)[..3] == Octets(Unit(v[..4])) && Pack(v)[3..] == Pack(v[4..]);
      assert u[..last] == u[..4] + u[4..][..last - 4] && v[..last] == v[..4] + v[4..][..last - 4];
      if Pack(u) == Pack(v) { UnitInjective(u[..4], v[..4]); }
      if u[..last] == v[..last] { assert u[..last][..4] == v[..last][..4] && u[..last][4..] == v[..last][4..]; }
    }
  }

  function CharValue(c: char): sextet
    requires IsUrlChar(c)
  {
    UrlValue(c as int).value
  }

  /** Two accepted strings name one id if and only if their first twenty-one characters
      agree and so do the top two bits of the last; the padding does not matter. */
  lemma SameIdIff(s: Str, t: Str)
    requires Accepted(s) && Accepted(t)
    ensures Parse(s) == Parse(t) <==> s[..21] == t[..21] && CharValue(s[21]) / 16 == CharValue(t[21]) / 16
  {
    AcceptedParses(s);
    AcceptedParses(t);
    var u, v := Values(Latin1(s)[..22]), Values(Latin1(t)[..22]);
    PackSame(u, v);
    if u[..21] == v[..21] {
      forall i | 0 <= i < 21 ensures s[..21][i] == t[..21][i] {
        assert u[..21][i] == v[..21][i];
        UrlValueInjective(Latin1(s)[i], Latin1(t)[i]);
      }
    }
    if s[..21] == t[..21] {
      forall i | 0 <= i < 21 ensures u[..21][i] == v[..21][i] { assert s[..21][i] == t[..21][i]; }
    }
  }
}
