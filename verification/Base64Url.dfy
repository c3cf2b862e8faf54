/** Unpadded base64url (RFC 4648 section 5) as custom_components/esphome_mcp/oauth_common.py
    writes it, with the lenient decoder of Python's binascii: characters outside the alphabet
    are skipped, the standard alphabet is accepted beside the URL one, and bits left over
    before padding are dropped. Only decode after encode is the identity. */
module Base64Url {
  import opened Wrappers
  import opened Text

  type Byte = x: int | 0 <= x < 256
  type Bytes = seq<Byte>
  /** str.encode("ascii"): None where Python raises. */
  function ToAscii(s: string): Option<Bytes> {
    if s == "" then Some([])
    else
      var head := ToAscii(s[..|s| - 1]);
      if head.None? || s[|s| - 1] >= 128 as char then None else Some(head.value + [s[|s| - 1] as int])
  }

  lemma {:induction false} ToAsciiByCharacter(s: string)
    ensures ToAscii(s).Some? <==> forall i | 0 <= i < |s| :: s[i] < 128 as char
    ensures ToAscii(s).Some? ==>
              |ToAscii(s).value| == |s| && forall i | 0 <= i < |s| :: ToAscii(s).value[i] == s[i] as int
  {
    if s != "" {
      ToAsciiByCharacter(s[..|s| - 1]);
      assert forall i | 0 <= i < |s| - 1 :: s[i] == s[..|s| - 1][i];
    }
  }

  lemma ToAsciiInjective(a: string, b: string)
    requires ToAscii(a).Some? && ToAscii(a) == ToAscii(b)
    ensures a == b
  {
    ToAsciiByCharacter(a);
    ToAsciiByCharacter(b);
    forall i | 0 <= i < |a| ensures a[i] == b[i] {
      assert a[i] as int == b[i] as int;
    }
  }

  lemma ToAsciiConcat(a: string, b: string)
    requires ToAscii(a).Some? && ToAscii(b).Some?
    ensures ToAscii(a + b).Some?
  {
    ToAsciiByCharacter(a);
    ToAsciiByCharacter(b);
    ToAsciiByCharacter(a + b);
  }

  type Sextet = x: int | 0 <= x < 64

  function Symbol(v: Sextet): char {
    if v < 26 then ('A' as int + v) as char
    else if v < 52 then ('a' as int + v - 26) as char
    else if v < 62 then ('0' as int + v - 52) as char
    else if v == 62 then '-'
    else '_'
  }

  /** The decoding table after '-' and '_' are translated to '+' and '/'. */
  function SextetOf(c: char): Option<Sextet> {
    if 'A' <= c <= 'Z' then Some(c as int - 'A' as int)
    else if 'a' <= c <= 'z' then Some(c as int - 'a' as int + 26)
    else if '0' <= c <= '9' then Some(c as int - '0' as int + 52)
    else if c == '-' || c == '+' then Some(62)
    else if c == '_' || c == '/' then Some(63)
    else None
  }

  /** Three bytes become four sextets; a last group of one or two bytes becomes two or three. */
  function ToSextets(raw: Bytes): seq<Sextet> {
    if |raw| == 0 then []
    else if |raw| == 1 then [raw[0] / 4, raw[0] % 4 * 16]
    else if |raw| == 2 then [raw[0] / 4, raw[0] % 4 * 16 + raw[1] / 16, raw[1] % 16 * 4]
    else [raw[0] / 4, raw[0] % 4 * 16 + raw[1] / 16, raw[1] % 16 * 4 + raw[2] / 64, raw[2] % 64] + ToSextets(raw[3..])
  }

  function FirstOf(v: Sextet, w: Sextet): Byte { v as int * 4 + w as int / 16 }

  function SecondOf(v: Sextet, w: Sextet): Byte { v as int % 16 * 16 + w as int / 4 }

  function ThirdOf(v: Sextet, w: Sextet): Byte { v as int % 4 * 64 + w as int }

  /** The reverse, dropping the bits a short last group holds beyond its whole bytes. */
  function ToBytes(vs: seq<Sextet>): Bytes {
    if |vs| < 2 then []
    else if |vs| == 2 then [FirstOf(vs[0], vs[1])]
    else if |vs| == 3 then [FirstOf(vs[0], vs[1]), SecondOf(vs[1], vs[2])]
    else [FirstOf(vs[0], vs[1]), SecondOf(vs[1], vs[2]), ThirdOf(vs[2], vs[3])] + ToBytes(vs[4..])
  }

  function Spell(vs: seq<Sextet>): (s: string)
    ensures |s| == |vs|
  {
    seq(|vs|, i requires 0 <= i < |vs| => Symbol(vs[i]))
  }

  function Encode(raw: Bytes): string { Spell(ToSextets(raw)) }

  /** The sextets binascii.a2b_base64 collects in its non-strict mode: `seen` holds those read
      before position `i`, `pads` counts the padding characters seen in the current group of
      four. A group completed by padding ends the text; an incomplete last group without it is
      an error. */
  function Collect(s: string, i: nat, seen: seq<Sextet>, pads: nat): Option<seq<Sextet>>
    requires i <= |s|
    decreases |s| - i
  {
    if i == |s| then if |seen| % 4 == 0 then Some(seen) else None
    else if s[i] == '=' then
      if |seen| % 4 >= 2 && |seen| % 4 + pads + 1 >= 4 then Some(seen)
      else Collect(s, i + 1, seen, if |seen| % 4 >= 2 then pads + 1 else pads)
    else if SextetOf(s[i]).None? then Collect(s, i + 1, seen, pads)
    else Collect(s, i + 1, seen + [SextetOf(s[i]).value], 0)
  }

  function Padding(n: nat): string {
    match n % 4
    case 0 => ""
    case 1 => "==="
    case 2 => "=="
    case _ => "="
  }

  /** None where Python raises: a non-ASCII character, or an incomplete last group. */
  function Decode(s: string): Option<Bytes> {
    if ToAscii(s).None? then None
    else match Collect(s + Padding(|s|), 0, [], 0)
      case None => None
      case Some(vs) => Some(ToBytes(vs))
  }

  lemma SpellAlphabet(vs: seq<Sextet>)
    ensures ToAscii(Spell(vs)).Some?
    ensures forall i | 0 <= i < |vs| ::
              SextetOf(Spell(vs)[i]) == Some(vs[i]) && Spell(vs)[i] != '=' && Spell(vs)[i] != '.'
                  && Spell(vs)[i] < 128 as char
  {
    ToAsciiByCharacter(Spell(vs));
  }

  lemma {:induction false} CollectSpelling(vs: seq<Sextet>, i: nat)
    requires i <= |vs| && |vs| % 4 != 1
    ensures Collect(Spell(vs) + Padding(|vs|), i, vs[..i], 0) == Some(vs)
    decreases |vs| - i
  {
    var text := Spell(vs) + Padding(|vs|);
    SpellAlphabet(vs);
    if i < |vs| {
      CollectSpelling(vs, i + 1);
      assert vs[..i + 1] == vs[..i] + [vs[i]];
    } else {
      assert vs[..i] == vs;
      if i % 4 == 2 {
        assert Collect(text, i + 1, vs, 1) == Some(vs);
      }
    }
  }

  lemma GroupRoundTrip(a: Byte, b: Byte, c: Byte)
    ensures FirstOf(a / 4, a % 4 * 16 + b / 16) == a
    ensures SecondOf(a % 4 * 16 + b / 16, b % 16 * 4 + c / 64) == b
    ensures ThirdOf(b % 16 * 4 + c / 64, c % 64) == c
  {
  }

  lemma WholeGroup(v: Sextet, w: Sextet, x: Sextet, y: Sextet, rest: seq<Sextet>)
    ensures ToBytes([v, w, x, y] + rest) == [FirstOf(v, w), SecondOf(w, x), ThirdOf(x, y)] + ToBytes(rest)
  {
    hide FirstOf, SecondOf, ThirdOf;
    assert ([v, w, x, y] + rest)[4..] == rest;
  }

  lemma LastGroup(raw: Bytes)
    requires |raw| < 3
    ensures |ToSextets(raw)| != 1 && |ToSextets(raw)| < 4 && ToBytes(ToSextets(raw)) == raw
  {
    hide FirstOf, SecondOf;
    if |raw| == 1 {
      GroupRoundTrip(raw[0], 0, 0);
    } else if |raw| == 2 {
      GroupRoundTrip(raw[0], raw[1], 0);
    }
  }

  lemma {:induction false} SextetRoundTrip(raw: Bytes)
    ensures |ToSextets(raw)| % 4 != 1
    ensures ToBytes(ToSextets(raw)) == raw
  {
    hide FirstOf, SecondOf, ThirdOf, ToBytes;
    if |raw| < 3 {
      LastGroup(raw);
    } else {
      var a, b, c := raw[0], raw[1], raw[2];
      SextetRoundTrip(raw[3..]);
      GroupRoundTrip(a, b, c);
      WholeGroup(a / 4, a % 4 * 16 + b / 16, b % 16 * 4 + c / 64, c % 64, ToSextets(raw[3..]));
      assert raw == [a, b, c] + raw[3..];
    }
  }

  /** Decoding recovers every byte string from its encoding. */
  lemma DecodeUndoesEncode(raw: Bytes)
    ensures Decode(Encode(raw)) == Some(raw)
  {
    SextetRoundTrip(raw);
    SpellAlphabet(ToSextets(raw));
    assert ToSextets(raw)[..0] == [];
    CollectSpelling(ToSextets(raw), 0);
  }

  /** Three bytes are encoded by themselves. */
  lemma GroupByGroup(group: Bytes, rest: Bytes)
    requires |group| == 3
    ensures Encode(group + rest) == Encode(group) + Encode(rest)
  {
    hide Symbol;
    assert (group + rest)[3..] == rest && group[3..] == [];
    assert ToSextets(group + rest) == ToSextets(group) + ToSextets(rest);
  }

  /** The vectors of RFC 4648 section 10, without padding, and the two characters of its section 5. */
  lemma KnownAnswers()
    ensures Encode([]) == "" && Encode([102]) == "Zg" && Encode([102, 111]) == "Zm8"
    ensures Encode([102, 111, 111]) == "Zm9v" && Encode([98, 97, 114]) == "YmFy" && Encode([251, 255]) == "-_8"
    ensures SextetOf('+') == SextetOf('-') == Some(62) && SextetOf('/') == SextetOf('_') == Some(63)
  {
    assert ToSextets([102, 111, 111][3..]) == [] && ToSextets([98, 97, 114][3..]) == [];
    assert ToSextets([102, 111, 111]) == [25, 38, 61, 47];
    assert ToSextets([98, 97, 114]) == [24, 38, 5, 50];
  }

  /** Encoded text is ASCII without the separator of a signed blob, and only empty for no bytes. */
  lemma EncodeAlphabet(raw: Bytes)
    ensures forall i | 0 <= i < |Encode(raw)| :: Encode(raw)[i] < 128 as char && Encode(raw)[i] != '.'
    ensures raw != [] ==> |Encode(raw)| >= 2
  {
    SpellAlphabet(ToSextets(raw));
  }

  /** The decoder is not injective: the bits a last symbol carries beyond its byte are dropped. */
  lemma DecodeIsLenient(v: Sextet, w: Sextet)
    requires w % 16 != 0
    ensures Spell([v, w]) != Encode([FirstOf(v, w)])
    ensures Decode(Spell([v, w])) == Decode(Encode([FirstOf(v, w)]))
  {
    var raw := [FirstOf(v, w)];
    DecodeUndoesEncode(raw);
    SpellAlphabet([v, w]);
    assert [v, w][..0] == [];
    CollectSpelling([v, w], 0);
    SpellAlphabet(ToSextets(raw));
    assert SextetOf(Spell([v, w])[1]) != SextetOf(Encode(raw)[1]);
  }

  /** Text with its one padding character restored decodes like the text without it. */
  lemma PaddedSpelling(s: string)
    requires |s| % 4 == 3
    ensures Decode(s + "=") == Decode(s)
  {
    assert Padding(|s|) == "=" && s + "=" + Padding(|s + "="|) == s + "=";
    ToAsciiByCharacter(s);
    ToAsciiByCharacter(s + "=");
    assert (s + "=")[|s|] == '=' && forall i | 0 <= i < |s| :: (s + "=")[i] == s[i];
  }

  lemma PaddingCompletes(n: nat)
    ensures |Padding(n)| < 4 && (n + |Padding(n)|) % 4 == 0
    ensures forall k :: 0 <= k < |Padding(n)| ==> Padding(n)[k] == '='
  {
  }

  /** One padding character does not end a group of two symbols: text that breaks off after it is an error. */
  lemma BrokenOffIsRefused(v: Sextet, w: Sextet, x: Sextet)
    ensures Decode(Spell([v, w]) + "=" + Spell([x])) == None
  {
    SpellAlphabet([v, w]);
    SpellAlphabet([x]);
    var s := Spell([v, w]) + "=" + Spell([x]);
    ToAsciiByCharacter(s);
    assert s + Padding(|s|) == s && [] + [v] == [v] && [v] + [w] == [v, w];
    assert Collect(s, 4, [v, w] + [x], 0) == None;
    assert Collect(s, 3, [v, w], 1) == None;
    assert Collect(s, 2, [v, w], 0) == None;
    assert Collect(s, 1, [v], 0) == None;
    assert Collect(s, 0, [], 0) == None;
  }

  /** A single symbol is an error, padded or not. */
  lemma OneSymbolIsRefused(v: Sextet)
    ensures Decode(Spell([v])) == None
  {
    SpellAlphabet([v]);
    var s := Spell([v]) + "===";
    assert Spell([v]) + Padding(1) == s && [] + [v] == [v];
    assert Collect(s, 4, [v], 0) == None;
    assert Collect(s, 3, [v], 0) == None;
    assert Collect(s, 2, [v], 0) == None;
    assert Collect(s, 1, [v], 0) == None;
    assert Collect(s, 0, [], 0) == None;
  }

  /** Two leading symbols fix the first decoded byte, whatever follows. */
  lemma FirstByte(s: string)
    requires |s| >= 2 && SextetOf(s[0]).Some? && SextetOf(s[1]).Some?
    requires Decode(s).Some?
    ensures Decode(s).value != []
    ensures Decode(s).value[0] == FirstOf(SextetOf(s[0]).value, SextetOf(s[1]).value)
  {
    var t := s + Padding(|s|);
    assert t[0] == s[0] && t[1] == s[1];
    var two := [SextetOf(s[0]).value, SextetOf(s[1]).value];
    assert [] + [two[0]] == two[..1] && two[..1] + [two[1]] == two;
    CollectExtends(t, 2, two, 0);
    assert Collect(t, 0, [], 0) == Collect(t, 2, two, 0);
  }

  lemma {:induction false} CollectExtends(s: string, i: nat, seen: seq<Sextet>, pads: nat)
    requires i <= |s|
    ensures Collect(s, i, seen, pads).Some? ==> seen <= Collect(s, i, seen, pads).value
    decreases |s| - i
  {
    if i == |s| {
    } else if s[i] == '=' {
      CollectExtends(s, i + 1, seen, if |seen| % 4 >= 2 then pads + 1 else pads);
    } else if SextetOf(s[i]).None? {
      CollectExtends(s, i + 1, seen, pads);
    } else {
      CollectExtends(s, i + 1, seen + [SextetOf(s[i]).value], 0);
    }
  }

  /** An object's text starts with a brace, so its encoding starts with 'e' and one of the
      symbols from 48 on, never with the letters of "es". */
  lemma ObjectEncodingStart(raw: Bytes)
    requires raw != [] && raw[0] == '{' as int
    ensures |Encode(raw)| >= 2 && Encode(raw)[1] != 's'
  {
    assert 48 <= ToSextets(raw)[1];
    assert Encode(raw)[1] == Symbol(ToSextets(raw)[1]);
  }

  /** What a signed blob relies on in an encoder and a decoder: nothing is lost, and the text is
      non-empty ASCII without the separator. */
  ghost predicate RoundTripLaws(encode: Bytes -> string, decode: string -> Option<Bytes>) {
    && (forall raw :: decode(encode(raw)) == Some(raw))
    && (forall raw, i :: 0 <= i < |encode(raw)| ==> encode(raw)[i] < 128 as char && encode(raw)[i] != '.')
    && (forall raw :: raw != [] ==> encode(raw) != "")
  }

  /** What keeps encoded objects and text starting with "es" apart: an object's text starts with
      a brace, and text starting with "es" decodes to bytes starting with 122. */
  ghost predicate LeadLaws(encode: Bytes -> string, decode: string -> Option<Bytes>) {
    && (forall raw :: raw != [] && raw[0] == '{' as int ==> |encode(raw)| >= 2 && encode(raw)[1] != 's')
    && (forall s :: |s| >= 2 && s[0] == 'e' && s[1] == 's' && decode(s).Some? ==>
          decode(s).value != [] && decode(s).value[0] == 122)
  }

  /** The component's own encoder and decoder meet both. */
  lemma ComponentBase64Laws()
    ensures RoundTripLaws(Encode, Decode)
    ensures LeadLaws(Encode, Decode)
  {
    forall raw ensures Decode(Encode(raw)) == Some(raw) && (raw != [] ==> Encode(raw) != "") {
      DecodeUndoesEncode(raw);
      EncodeAlphabet(raw);
    }
    forall raw, i | 0 <= i < |Encode(raw)| ensures Encode(raw)[i] < 128 as char && Encode(raw)[i] != '.' {
      EncodeAlphabet(raw);
    }
    forall raw: Bytes | raw != [] && raw[0] == '{' as int ensures |Encode(raw)| >= 2 && Encode(raw)[1] != 's' {
      ObjectEncodingStart(raw);
    }
    forall s | |s| >= 2 && s[0] == 'e' && s[1] == 's' && Decode(s).Some?
      ensures Decode(s).value != [] && Decode(s).value[0] == 122
    {
      FirstByte(s);
    }
  }
}
