/** MAC addresses in the notations the readers meet, and the canonical form they agree on. */
module Mac {
  import opened Oids
  import opened Text

  type Octets = seq<nat>

  predicate IsMac(o: Octets) {
    |o| == 6 && AllOctets(o)
  }

  predicate AllOctets(o: seq<nat>) {
    forall i :: 0 <= i < |o| ==> o[i] <= 255
  }

  // ---- Hexadecimal ----

  predicate IsHex(c: char) {
    '0' <= c <= '9' || 'a' <= c <= 'f' || 'A' <= c <= 'F'
  }

  predicate AllHex(s: string) {
    forall i :: 0 <= i < |s| ==> IsHex(s[i])
  }

  function HexChar(d: nat): (c: char)
    requires d < 16
    ensures IsHex(c) && HexValue(c) == d && LowerChar(c) == c
  {
    if d < 10 then '0' + d as char else 'a' + (d - 10) as char
  }

  function HexValue(c: char): (d: nat)
    requires IsHex(c)
    ensures d < 16
  {
    if c <= '9' then (c - '0') as nat
    else if c <= 'F' then (c - 'A') as nat + 10
    else (c - 'a') as nat + 10
  }

  function LowerChar(c: char): char {
    if 'A' <= c <= 'Z' then c - 'A' + 'a' else c
  }

  /** `str.lower`, on ASCII letters. */
  function Lower(s: string): (r: string)
    ensures |r| == |s|
    ensures forall i :: 0 <= i < |s| ==> r[i] == LowerChar(s[i])
  {
    if s == "" then "" else [LowerChar(s[0])] + Lower(s[1..])
  }

  function Hex2(b: nat): (s: string)
    requires b <= 255
    ensures |s| == 2 && AllHex(s)
  {
    [HexChar(b / 16), HexChar(b % 16)]
  }

  /** `aa:bb:cc:dd:ee:ff` for six octets. */
  function Canon(o: Octets): string
    requires AllOctets(o)
  {
    if o == [] then ""
    else if |o| == 1 then Hex2(o[0])
    else Hex2(o[0]) + ":" + Canon(o[1..])
  }

  /** The octets' digits without separators. */
  function Digits(o: Octets): string
    requires AllOctets(o)
  {
    if o == [] then "" else Hex2(o[0]) + Digits(o[1..])
  }

  // ---- The readers' functions ----

  predicate IsSpace(c: char) {
    || 9 <= c as int <= 13 || 28 <= c as int <= 32 || c as int == 0x85 || c as int == 0xA0
    || c as int == 0x1680 || 0x2000 <= c as int <= 0x200A || c as int == 0x2028 || c as int == 0x2029
    || c as int == 0x202F || c as int == 0x205F || c as int == 0x3000
  }

  function StripLeft(s: string): string {
    if s != "" && IsSpace(s[0]) then StripLeft(s[1..]) else s
  }

  function StripRight(s: string): string {
    if s != "" && IsSpace(s[|s| - 1]) then StripRight(s[..|s| - 1]) else s
  }

  function Strip(s: string): string {
    StripRight(StripLeft(s))
  }

  /** The text without the characters of `gone`. */
  function Remove(s: string, gone: char -> bool): string {
    if s == "" then ""
    else (if gone(s[0]) then "" else [s[0]]) + Remove(s[1..], gone)
  }

  /** `":".join` over pairs of characters. */
  function Colons(s: string): string {
    if |s| <= 2 then s else s[..2] + ":" + Colons(s[2..])
  }

  /** `_fmt_mac`: six characters below 256 are the octets themselves. */
  function FmtMac(raw: string): string {
    if |raw| == 6 && !StartsWith(raw, "0x") && (forall i :: 0 <= i < 6 ==> raw[i] as int <= 255) then
      Canon(Bytes(raw))
    else
      var hexs := Remove(if StartsWith(raw, "0x") then raw[2..] else raw, c => c == ':' || c == ' ');
      if |hexs| == 12 && AllHex(hexs) then Lower(Colons(hexs)) else raw
  }

  function Bytes(raw: string): (o: Octets)
    requires forall i :: 0 <= i < |raw| ==> raw[i] as int <= 255
    ensures |o| == |raw| && AllOctets(o)
  {
    seq(|raw|, i requires 0 <= i < |raw| => raw[i] as nat)
  }

  predicate Separator(c: char) {
    IsSpace(c) || c == ':' || c == '.' || c == '-'
  }

  /** `_norm_mac`. */
  function NormMac(value: string): string {
    var all := Remove(FmtMac(Strip(value)), Separator);
    var hexs := if |all| >= 2 && Lower(all[..2]) == "0x" then all[2..] else all;
    if |hexs| != 12 || !AllHex(hexs) then "" else Lower(Colons(hexs))
  }

  const ZERO_MAC := "00:00:00:00:00:00"

  datatype DropReason = Host | Group | Own

  /** `mac_drop_reason`. */
  function DropReasonOf(mac: string, own: set<string>): DropReason {
    var norm := NormMac(mac);
    if norm == "" || FirstOctet(norm) % 2 == 1 || norm == ZERO_MAC then Group
    else if norm in own then Own
    else Host
  }

  /** `int(norm[:2], 16)` of a normalised address. */
  function FirstOctet(norm: string): nat {
    if |norm| >= 2 && IsHex(norm[0]) && IsHex(norm[1]) then 16 * HexValue(norm[0]) + HexValue(norm[1])
    else 0
  }

  /** `_mac_from_index`: six sub-identifiers that are octets. */
  function MacFromIndex(parts: Oid): string {
    if |parts| == 6 && AllOctets(parts) then Canon(parts) else ""
  }

  // ---- Canonical form ----

  lemma Hex2Value(b: nat)
    requires b <= 255
    ensures 16 * HexValue(Hex2(b)[0]) + HexValue(Hex2(b)[1]) == b
  {
  }

  lemma {:induction false} CanonInjective(a: Octets, b: Octets)
    requires |a| == |b| && AllOctets(a) && AllOctets(b) && Canon(a) == Canon(b)
    ensures a == b
  {
    if a != [] {
      Hex2Value(a[0]);
      Hex2Value(b[0]);
      assert Canon(a)[0] == Hex2(a[0])[0] && Canon(a)[1] == Hex2(a[0])[1];
      assert Canon(b)[0] == Hex2(b[0])[0] && Canon(b)[1] == Hex2(b[0])[1];
      if |a| > 1 {
        assert Canon(a)[3..] == Canon(a[1..]) && Canon(b)[3..] == Canon(b[1..]);
        CanonInjective(a[1..], b[1..]);
      }
    }
  }

  lemma {:induction false} RemoveAppends(a: string, b: string, gone: char -> bool)
    ensures Remove(a + b, gone) == Remove(a, gone) + Remove(b, gone)
  {
    if a == "" {
      assert a + b == b;
    } else {
      assert (a + b)[1..] == a[1..] + b;
      RemoveAppends(a[1..], b, gone);
    }
  }

  lemma {:induction false} RemoveNothing(s: string, gone: char -> bool)
    requires forall i :: 0 <= i < |s| ==> !gone(s[i])
    ensures Remove(s, gone) == s
  {
    if s != "" {
      RemoveNothing(s[1..], gone);
    }
  }

  /** Dropping the colons leaves the digits. */
  lemma {:induction false} RemoveColons(o: Octets, gone: char -> bool)
    requires AllOctets(o) && gone(':') && forall c :: IsHex(c) ==> !gone(c)
    ensures Remove(Canon(o), gone) == Digits(o)
  {
    if o != [] {
      RemoveNothing(Hex2(o[0]), gone);
      if |o| == 1 {
        assert Digits(o) == Hex2(o[0]) + "";
      } else {
        RemoveColons(o[1..], gone);
        RemoveAppends(Hex2(o[0]) + ":", Canon(o[1..]), gone);
        RemoveAppends(Hex2(o[0]), ":", gone);
        assert Remove(":", gone) == "";
      }
    }
  }

  lemma {:induction false} DigitsShape(o: Octets)
    requires AllOctets(o)
    ensures |Digits(o)| == 2 * |o| && AllHex(Digits(o)) && Lower(Digits(o)) == Digits(o)
  {
    if o != [] {
      DigitsShape(o[1..]);
    }
  }

  lemma {:induction false} ColonsOfDigits(o: Octets)
    requires AllOctets(o)
    ensures Colons(Digits(o)) == Canon(o)
    ensures Lower(Canon(o)) == Canon(o)
  {
    if o != [] {
      ColonsOfDigits(o[1..]);
      DigitsShape(o[1..]);
      assert Digits(o)[..2] == Hex2(o[0]) && Digits(o)[2..] == Digits(o[1..]);
      if |o| == 1 {
        assert Digits(o) == Hex2(o[0]);
      }
    }
  }

  lemma DigitsGiveCanon(o: Octets)
    requires IsMac(o)
    ensures |Digits(o)| == 12 && AllHex(Digits(o))
    ensures Lower(Colons(Digits(o))) == Canon(o)
  {
    DigitsShape(o);
    ColonsOfDigits(o);
  }

  lemma {:induction false} CanonLength(o: Octets)
    requires AllOctets(o) && o != []
    ensures |Canon(o)| == 3 * |o| - 1
    ensures IsHex(Canon(o)[0]) && IsHex(Canon(o)[|Canon(o)| - 1])
    ensures Canon(o)[0] == Hex2(o[0])[0] && Canon(o)[1] == Hex2(o[0])[1]
  {
    if |o| > 1 {
      CanonLength(o[1..]);
    }
  }

  lemma StripCanon(o: Octets)
    requires IsMac(o)
    ensures Strip(Canon(o)) == Canon(o)
  {
    CanonLength(o);
  }

  lemma FmtOfCanon(o: Octets)
    requires IsMac(o)
    ensures FmtMac(Canon(o)) == Canon(o)
  {
    CanonLength(o);
    var gone := c => c == ':' || c == ' ';
    assert Canon(o)[1] != 'x';
    RemoveColons(o, gone);
    DigitsGiveCanon(o);
  }

  /** The canonical form is a fixed point. */
  lemma NormOfCanon(o: Octets)
    requires IsMac(o)
    ensures NormMac(Canon(o)) == Canon(o)
  {
    hide FmtMac;
    StripCanon(o);
    FmtOfCanon(o);
    RemoveColons(o, Separator);
    DigitsGiveCanon(o);
    assert Lower(Digits(o)[..2])[1] == LowerChar(Digits(o)[1]);
  }

  /** ifPhysAddress in hexadecimal. */
  lemma HexForm(o: Octets)
    requires IsMac(o)
    ensures FmtMac("0x" + Digits(o)) == Canon(o)
    ensures NormMac(FmtMac("0x" + Digits(o))) == Canon(o)
  {
    DigitsGiveCanon(o);
    var raw := "0x" + Digits(o);
    assert raw[2..] == Digits(o) && StartsWith(raw, "0x");
    RemoveNothing(Digits(o), c => c == ':' || c == ' ');
    NormOfCanon(o);
  }

  /** The octets themselves, as text. */
  function RawText(o: Octets): (raw: string)
    requires IsMac(o)
    ensures |raw| == 6 && forall i :: 0 <= i < 6 ==> raw[i] as nat == o[i]
  {
    [o[0] as char, o[1] as char, o[2] as char, o[3] as char, o[4] as char, o[5] as char]
  }

  lemma {:induction false} RemoveShortens(s: string, gone: char -> bool)
    ensures |Remove(s, gone)| <= |s|
  {
    if s != "" {
      RemoveShortens(s[1..], gone);
    }
  }

  lemma {:induction false} StripShortens(s: string)
    ensures |StripLeft(s)| <= |s| && |StripRight(s)| <= |s|
  {
    if s != "" {
      StripShortens(s[1..]);
      StripShortens(s[..|s| - 1]);
    }
  }

  /** ifPhysAddress printed as its raw octets comes out canonical exactly when the octets do
      not begin with the characters of "0x". */
  lemma RawForm(o: Octets)
    requires IsMac(o)
    ensures NormMac(FmtMac(RawText(o))) == Canon(o) <==> !(o[0] == '0' as nat && o[1] == 'x' as nat)
  {
    var raw := RawText(o);
    assert o[0] == '0' as nat && o[1] == 'x' as nat ==> raw[..2] == "0x";
    if StartsWith(raw, "0x") {
      assert raw[0] == raw[..2][0] == '0' && raw[1] == raw[..2][1] == 'x';
      RemoveShortens(raw[2..], c => c == ':' || c == ' ');
      assert FmtMac(raw) == raw;
      ShortNorm(raw);
      CanonLength(o);
    } else {
      assert Bytes(raw) == o;
      NormOfCanon(o);
    }
  }

  /** Text that begins with "0x" and is too short to hold six octets is no address. */
  lemma ShortNorm(raw: string)
    requires |raw| == 6 && StartsWith(raw, "0x")
    ensures NormMac(raw) == ""
  {
    assert raw[0] == raw[..2][0] == '0' && raw[1] == raw[..2][1] == 'x';
    var s := Strip(raw);
    assert StripLeft(raw) == raw;
    StripShortens(raw);
    StripKeepsFront(raw);
    assert StartsWith(s, "0x") && |s| <= 6;
    RemoveShortens(s[2..], c => c == ':' || c == ' ');
    assert FmtMac(s) == s;
    RemoveShortens(s, Separator);
  }

  lemma {:induction false} StripKeepsFront(s: string)
    requires StartsWith(s, "0x")
    ensures StartsWith(StripRight(s), "0x")
  {
    assert s[0] == s[..2][0] && s[1] == s[..2][1];
    if IsSpace(s[|s| - 1]) {
      assert s[..|s| - 1][..2] == s[..2];
      StripKeepsFront(s[..|s| - 1]);
    }
  }

  // ---- Any notation ----

  /** Capital letters have small ones; nothing else changes. */
  lemma LowerMeaning(s: string, i: nat, letter: nat)
    requires i < |s| && letter < 26
    ensures s[i] == (65 + letter) as char ==> Lower(s)[i] == (97 + letter) as char
    ensures (s[i] as int < 65 || s[i] as int > 90) ==> Lower(s)[i] == s[i]
  {
    hide Lower;
    hide LowerChar;
    LowerLetter(letter);
    OtherStays(s[i]);
  }

  lemma LowerLetter(letter: nat)
    requires letter < 26
    ensures LowerChar((65 + letter) as char) == (97 + letter) as char
  {
  }

  lemma OtherStays(c: char)
    ensures (c as int < 65 || c as int > 90) ==> LowerChar(c) == c
  {
  }

  /** White space among the ASCII characters: tab to carriage return, the four separators, space. */
  lemma AsciiSpace(c: char)
    requires c as int < 128
    ensures IsSpace(c) <==> c in "\t\n\U{B}\U{C}\r\U{1C}\U{1D}\U{1E}\U{1F} "
  {
  }

  predicate AllSpace(s: string) {
    forall i :: 0 <= i < |s| ==> IsSpace(s[i])
  }

  lemma {:induction false} StripLeftMeaning(s: string)
    ensures exists a :: s == a + StripLeft(s) && AllSpace(a)
    ensures StripLeft(s) != "" ==> !IsSpace(StripLeft(s)[0])
  {
    if s != "" && IsSpace(s[0]) {
      StripLeftMeaning(s[1..]);
      var a :| s[1..] == a + StripLeft(s[1..]) && AllSpace(a);
      assert s == ([s[0]] + a) + StripLeft(s);
    } else {
      assert s == "" + StripLeft(s);
    }
  }

  lemma {:induction false} StripRightMeaning(s: string)
    ensures exists b :: s == StripRight(s) + b && AllSpace(b)
    ensures StripRight(s) != "" ==> !IsSpace(StripRight(s)[|StripRight(s)| - 1])
  {
    if s != "" && IsSpace(s[|s| - 1]) {
      var front := s[..|s| - 1];
      StripRightMeaning(front);
      var b :| front == StripRight(front) + b && AllSpace(b);
      assert s == StripRight(s) + (b + [s[|s| - 1]]);
    } else {
      assert s == StripRight(s) + "";
    }
  }

  /** Stripping takes the spaces off both ends, and only those. */
  lemma StripMeaning(s: string)
    ensures exists a, b :: s == a + Strip(s) + b && AllSpace(a) && AllSpace(b)
    ensures Strip(s) != "" ==> !IsSpace(Strip(s)[0]) && !IsSpace(Strip(s)[|Strip(s)| - 1])
  {
    StripLeftMeaning(s);
    StripRightMeaning(StripLeft(s));
    var a :| s == a + StripLeft(s) && AllSpace(a);
    var b :| StripLeft(s) == Strip(s) + b && AllSpace(b);
    assert s == a + Strip(s) + b;
    if Strip(s) != "" {
      assert Strip(s)[0] == StripLeft(s)[0];
    }
  }

  lemma {:induction false} RemoveAll(s: string, gone: char -> bool)
    requires forall i :: 0 <= i < |s| ==> gone(s[i])
    ensures Remove(s, gone) == ""
  {
    if s != "" {
      RemoveAll(s[1..], gone);
    }
  }

  lemma RemoveStripped(s: string)
    ensures Remove(Strip(s), Separator) == Remove(s, Separator)
  {
    StripMeaning(s);
    var a, b :| s == a + Strip(s) + b && AllSpace(a) && AllSpace(b);
    RemoveAppends(a + Strip(s), b, Separator);
    RemoveAppends(a, Strip(s), Separator);
    RemoveAll(a, Separator);
    RemoveAll(b, Separator);
  }

  lemma {:induction false} RemoveTwice(s: string, some: char -> bool, all: char -> bool)
    requires forall c :: some(c) ==> all(c)
    ensures Remove(Remove(s, some), all) == Remove(s, all)
  {
    if s != "" {
      RemoveTwice(s[1..], some, all);
      var head := if some(s[0]) then "" else [s[0]];
      RemoveAppends(head, Remove(s[1..], some), all);
      assert Remove("", all) == "" && Remove([s[0]], all) == if all(s[0]) then "" else [s[0]];
    }
  }

  lemma {:induction false} LowerColons(s: string)
    ensures Lower(Colons(s)) == Colons(Lower(s))
  {
    if |s| > 2 {
      LowerColons(s[2..]);
      LowerAppends(s[..2] + ":", Colons(s[2..]));
      LowerAppends(s[..2], ":");
      assert Lower(":") == ":";
      assert s == s[..2] + s[2..];
      LowerAppends(s[..2], s[2..]);
      assert Lower(s)[..2] == Lower(s[..2]) && Lower(s)[2..] == Lower(s[2..]);
    }
  }

  lemma LowerIsHex(c: char)
    requires IsHex(LowerChar(c))
    ensures IsHex(c) && c != 'x' && c != 'X'
  {
  }

  lemma LowerHex(s: string)
    requires AllHex(Lower(s))
    ensures AllHex(s)
    ensures forall i :: 0 <= i < |s| ==> s[i] != 'x' && s[i] != 'X'
  {
    hide Lower;
    hide IsHex;
    hide LowerChar;
    forall i | 0 <= i < |s| ensures IsHex(s[i]) && s[i] != 'x' && s[i] != 'X' {
      assert IsHex(Lower(s)[i]);
      LowerIsHex(s[i]);
    }
  }

  /** Text of which "0x" is left in front has an 'x' among its digits. */
  lemma PrefixStays(t: string)
    ensures StartsWith(t, "0x") ==> |Remove(t, Separator)| > 1 && Remove(t, Separator)[1] == 'x'
  {
    if StartsWith(t, "0x") {
      assert t[0] == t[..2][0] == '0' && t[1] == t[..2][1] == 'x';
      assert t == "0x" + t[2..];
      RemoveAppends("0x", t[2..], Separator);
      RemoveNothing("0x", Separator);
    }
  }

  /** Text longer than six characters stays as it is, or its twelve digits are read. */
  lemma FmtOfLong(t: string)
    requires !StartsWith(t, "0x") && |t| > 6
    ensures var some := Remove(t, c => c == ':' || c == ' ');
      || FmtMac(t) == t
      || (|some| == 12 && AllHex(some) && FmtMac(t) == Lower(Colons(some)))
  {
    hide Remove;
    hide Lower;
    hide Colons;
    hide Canon;
  }

  /** Canonical digits in capitals or small letters, with nothing between them. */
  lemma DigitsInAnyCase(o: Octets, digits: string)
    requires IsMac(o) && Lower(digits) == Digits(o)
    ensures |digits| == 12 && AllHex(digits)
    ensures Lower(Colons(digits)) == Canon(o) && Lower(digits[..2]) != "0x"
    ensures forall i :: 0 <= i < |digits| ==> digits[i] != 'x'
  {
    DigitsGiveCanon(o);
    DigitsShape(o);
    LowerHex(digits);
    LowerColons(digits);
    ColonsOfDigits(o);
    assert Lower(digits[..2])[1] == LowerChar(digits[1]);
  }

  lemma FmtKeepsDigits(o: Octets, t: string)
    requires IsMac(o) && Lower(Remove(t, Separator)) == Digits(o)
    ensures Lower(Remove(FmtMac(t), Separator)) == Digits(o)
  {
    hide FmtMac;
    hide IsHex;
    hide IsSpace;
    hide LowerChar;
    var digits := Remove(t, Separator);
    var gone := c => c == ':' || c == ' ';
    var some := Remove(t, gone);
    DigitsInAnyCase(o, digits);
    PrefixStays(t);
    RemoveShortens(t, Separator);
    FmtOfLong(t);
    if FmtMac(t) != t {
      RemoveBoth(t);
      RemoveNoHex(some);
      assert some == digits;
      RemoveOfCanon(o);
      DigitsShape(o);
    }
  }

  lemma RemoveBoth(t: string)
    ensures Remove(Remove(t, c => c == ':' || c == ' '), Separator) == Remove(t, Separator)
  {
    RemoveTwice(t, c => c == ':' || c == ' ', Separator);
  }

  lemma RemoveNoHex(s: string)
    requires AllHex(s)
    ensures Remove(s, Separator) == s
  {
    RemoveNothing(s, Separator);
  }

  lemma RemoveOfCanon(o: Octets)
    requires IsMac(o)
    ensures Remove(Canon(o), Separator) == Digits(o)
  {
    RemoveColons(o, Separator);
  }

  /** The digits of six octets make up their address in capitals or small letters, and with spaces,
      colons, dots or dashes anywhere. */
  lemma AnyNotation(o: Octets, s: string)
    requires IsMac(o) && Lower(Remove(s, Separator)) == Digits(o)
    ensures NormMac(s) == Canon(o)
  {
    hide FmtMac;
    hide Strip;
    hide Remove;
    hide IsHex;
    hide IsSpace;
    hide LowerChar;
    RemoveStripped(s);
    FmtKeepsDigits(o, Strip(s));
    DigitsInAnyCase(o, Remove(FmtMac(Strip(s)), Separator));
  }

  // ---- Everything NormMac returns ----

  function OctetsOf(hexs: string): (o: Octets)
    requires AllHex(hexs) && |hexs| % 2 == 0
    ensures |o| == |hexs| / 2 && AllOctets(o)
  {
    if hexs == "" then [] else [16 * HexValue(hexs[0]) + HexValue(hexs[1])] + OctetsOf(hexs[2..])
  }

  lemma {:induction false} LowerAppends(a: string, b: string)
    ensures Lower(a + b) == Lower(a) + Lower(b)
  {
  }

  lemma PairValue(c: char, d: char)
    requires IsHex(c) && IsHex(d)
    ensures Hex2(16 * HexValue(c) + HexValue(d)) == [LowerChar(c), LowerChar(d)]
  {
    hide HexValue;
    hide HexChar;
    hide LowerChar;
    HexCharOfValue(c);
    HexCharOfValue(d);
    assert (16 * HexValue(c) + HexValue(d)) / 16 == HexValue(c);
  }

  lemma HexCharOfValue(c: char)
    requires IsHex(c)
    ensures HexChar(HexValue(c)) == LowerChar(c)
  {
  }

  lemma {:induction false} CanonOfHex(hexs: string)
    requires AllHex(hexs) && |hexs| % 2 == 0
    ensures Lower(Colons(hexs)) == Canon(OctetsOf(hexs))
  {
    hide HexValue;
    hide Hex2;
    if hexs != "" {
      var b := 16 * HexValue(hexs[0]) + HexValue(hexs[1]);
      PairValue(hexs[0], hexs[1]);
      assert Hex2(b) == Lower(hexs[..2]);
      CanonOfHex(hexs[2..]);
      if |hexs| == 2 {
        assert hexs[..2] == hexs;
      } else {
        LowerAppends(hexs[..2] + ":", Colons(hexs[2..]));
        LowerAppends(hexs[..2], ":");
        assert Lower(":") == ":";
        assert OctetsOf(hexs)[1..] == OctetsOf(hexs[2..]);
      }
    }
  }

  /** `_norm_mac` yields nothing, or a canonical address; and it is idempotent. */
  lemma NormMacCanonical(value: string)
    ensures NormMac(value) == "" || exists o :: IsMac(o) && NormMac(value) == Canon(o)
    ensures NormMac(NormMac(value)) == NormMac(value)
  {
    var all := Remove(FmtMac(Strip(value)), Separator);
    var hexs := if |all| >= 2 && Lower(all[..2]) == "0x" then all[2..] else all;
    if |hexs| == 12 && AllHex(hexs) {
      CanonOfHex(hexs);
      NormOfCanon(OctetsOf(hexs));
    }
  }

  // ---- The address filter ----

  predicate IsZero(o: Octets) {
    forall i :: 0 <= i < |o| ==> o[i] == 0
  }

  const ZERO: Octets := [0, 0, 0, 0, 0, 0]

  lemma ZeroIsZero()
    ensures Canon(ZERO) == ZERO_MAC
  {
    hide Hex2;
    var one: Octets := [0];
    var two := [0] + one;
    var three := [0] + two;
    assert Canon(three) == "00:00:00" by { CanonZero(two); CanonZero(one); ZeroOctet(); }
    ZerosAppend(three);
    assert ZERO == [0] + ([0] + ([0] + three));
  }

  lemma ZeroOctet()
    ensures Hex2(0) == "00"
  {
  }

  lemma ZerosAppend(o: Octets)
    requires AllOctets(o) && o != []
    ensures Canon([0] + ([0] + ([0] + o))) == "00:00:00:" + Canon(o)
  {
    hide Canon;
    CanonZero(o);
    CanonZero([0] + o);
    CanonZero([0] + ([0] + o));
    assert "00:" + ("00:" + ("00:" + Canon(o))) == "00:00:00:" + Canon(o);
  }

  lemma CanonZero(o: Octets)
    requires AllOctets(o) && o != []
    ensures Canon([0] + o) == "00:" + Canon(o)
  {
    assert ([0] + o)[1..] == o;
    assert Hex2(0) == "00";
  }

  /** Why an entry's address is dropped, in terms of its octets: the group bit or all zeroes;
      else one of the device's own; else it is a host. */
  lemma DropReasonMeaning(o: Octets, own: set<string>)
    requires IsMac(o)
    ensures DropReasonOf(Canon(o), own) == Group <==> o[0] % 2 == 1 || IsZero(o)
    ensures DropReasonOf(Canon(o), own) == Own <==> o[0] % 2 == 0 && !IsZero(o) && Canon(o) in own
  {
    hide NormMac;
    NormOfCanon(o);
    CanonLength(o);
    Hex2Value(o[0]);
    ZeroIsZero();
    if IsZero(o) {
      assert o == ZERO;
    } else if Canon(o) == ZERO_MAC {
      CanonInjective(o, ZERO);
    }
  }

  /** The two readings of one address agree: the forwarding table's index and the device's own
      ifPhysAddress in either of its printed forms meet in one string. */
  lemma OneAddressOneText(index: Oid, own: Octets)
    requires IsMac(index) && IsMac(own)
    ensures MacFromIndex(index) == NormMac(FmtMac("0x" + Digits(own))) <==> index == own
    ensures !(own[0] == '0' as nat && own[1] == 'x' as nat) ==>
              (MacFromIndex(index) == NormMac(FmtMac(RawText(own))) <==> index == own)
  {
    HexForm(own);
    RawForm(own);
    if Canon(index) == Canon(own) {
      CanonInjective(index, own);
    }
  }
}
