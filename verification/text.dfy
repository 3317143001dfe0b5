/** Text as the readers see it: decimal numbers, dotted OIDs, and the few string operations
    they use. Characters are taken one by one, as in Python. */
module Text {
  import opened Oids

  datatype Option<+T> = None | Some(value: T)

  // ---- Decimal numbers ----

  predicate IsDigit(c: char) {
    '0' <= c <= '9'
  }

  function DigitChar(d: nat): (c: char)
    requires d < 10
    ensures IsDigit(c) && DigitValue(c) == d
  {
    '0' + d as char
  }

  function DigitValue(c: char): nat
    requires IsDigit(c)
  {
    (c - '0') as nat
  }

  predicate AllDigits(s: string) {
    forall i :: 0 <= i < |s| ==> IsDigit(s[i])
  }

  /** `str` of a number. */
  function Decimal(n: nat): (s: string)
    ensures s != [] && AllDigits(s)
  {
    if n < 10 then [DigitChar(n)] else Decimal(n / 10) + [DigitChar(n % 10)]
  }

  function Value(s: string): nat
    requires AllDigits(s)
  {
    if s == [] then 0 else 10 * Value(s[..|s| - 1]) + DigitValue(s[|s| - 1])
  }

  lemma {:induction false} ValueOfDecimal(n: nat)
    ensures Value(Decimal(n)) == n
  {
    if n >= 10 {
      ValueOfDecimal(n / 10);
      assert Decimal(n)[..|Decimal(n)| - 1] == Decimal(n / 10);
    } else {
      assert Decimal(n)[..0] == [];
    }
  }

  /** `_int` on text: digits after an optional minus sign, else nothing. */
  function Int(s: string): Option<int> {
    if s != [] && AllDigits(s) then Some(Value(s))
    else if |s| > 1 && s[0] == '-' && AllDigits(s[1..]) then Some(0 - Value(s[1..]))
    else None
  }

  function Str(i: int): (s: string)
    ensures s != [] && (s[0] == '-' <==> i < 0)
  {
    if i < 0 then "-" + Decimal(-i) else Decimal(i)
  }

  lemma IntOfStr(i: int)
    ensures Int(Str(i)) == Some(i)
  {
    if i < 0 {
      ValueOfDecimal(-i);
      assert Str(i)[1..] == Decimal(-i) && Str(i)[0] == '-';
      assert !IsDigit(Str(i)[0]);
    } else {
      ValueOfDecimal(i);
    }
  }

  /** What is read as a number: digits, at least one, with or without a minus sign; leading zeros
      do not matter, and nothing else is a number. */
  lemma IntMeaning(s: string)
    ensures Int(s).Some? <==>
              (s != "" && AllDigits(s)) || (|s| > 1 && s[0] == '-' && AllDigits(s[1..]))
    ensures s != "" && AllDigits(s) ==> Int("0" + s) == Int(s) && Int("-" + s) == Some(-Int(s).value)
  {
    if s != "" && AllDigits(s) {
      LeadingZero(s);
      assert ("-" + s)[0] == '-' && ("-" + s)[1..] == s;
      assert !IsDigit(("-" + s)[0]);
    }
  }

  lemma {:induction false} LeadingZero(s: string)
    requires AllDigits(s)
    ensures AllDigits("0" + s) && Value("0" + s) == Value(s)
  {
    if s == "" {
      assert "0" + s == "0" && "0"[..0] == "";
    } else {
      assert ("0" + s)[..|s|] == "0" + s[..|s| - 1];
      LeadingZero(s[..|s| - 1]);
    }
  }

  // ---- Dotted OIDs ----

  /** An OID as text. */
  function Dotted(o: Oid): string
    requires o != []
  {
    if |o| == 1 then Decimal(o[0]) else Decimal(o[0]) + "." + Dotted(o[1..])
  }

  /** Where the first separator of the text is, or its length. */
  function FirstDot(s: string): (n: nat)
    ensures n <= |s|
    ensures forall i :: 0 <= i < n ==> s[i] != '.'
    ensures n < |s| ==> s[n] == '.'
  {
    if s == [] || s[0] == '.' then 0 else 1 + FirstDot(s[1..])
  }

  /** `s.split(".")`. */
  function Split(s: string): seq<string>
    decreases |s|
  {
    var n := FirstDot(s);
    if n == |s| then [s] else [s[..n]] + Split(s[n + 1..])
  }

  /** `_oid_key`: every part read as a number, or the empty tuple when one is not. */
  function OidKey(s: string): Oid {
    if forall p | p in Split(s) :: p != [] && AllDigits(p) then Values(Split(s)) else []
  }

  function Values(parts: seq<string>): Oid
    requires forall p | p in parts :: AllDigits(p)
  {
    if parts == [] then [] else [Value(parts[0])] + Values(parts[1..])
  }

  predicate StartsWith(s: string, prefix: string) {
    |prefix| <= |s| && s[..|prefix|] == prefix
  }

  /** `s[n:]`. */
  function From(s: string, n: nat): string {
    if n <= |s| then s[n..] else ""
  }

  lemma {:induction false} FirstDotOf(a: string, rest: string)
    requires AllDigits(a)
    ensures FirstDot(a + "." + rest) == |a|
    ensures FirstDot(a) == |a|
  {
    if a != [] {
      assert (a + "." + rest)[0] == a[0];
      assert (a + "." + rest)[1..] == a[1..] + "." + rest;
      FirstDotOf(a[1..], rest);
    }
  }

  /** The parts of a dotted OID are its sub-identifiers in decimal. */
  lemma {:induction false} SplitOfDotted(o: Oid)
    requires o != []
    ensures |Split(Dotted(o))| == |o|
    ensures forall i :: 0 <= i < |o| ==> Split(Dotted(o))[i] == Decimal(o[i])
  {
    var head := Decimal(o[0]);
    FirstDotOf(head, if |o| == 1 then "" else Dotted(o[1..]));
    if |o| > 1 {
      var s := Dotted(o);
      assert s[..|head|] == head;
      assert s[|head| + 1..] == Dotted(o[1..]);
      SplitOfDotted(o[1..]);
    }
  }

  lemma {:induction false} ValuesOf(parts: seq<string>, o: Oid)
    requires |parts| == |o| && forall i :: 0 <= i < |o| ==> parts[i] == Decimal(o[i])
    ensures forall p | p in parts :: p != [] && AllDigits(p)
    ensures Values(parts) == o
  {
    if o != [] {
      ValuesOf(parts[1..], o[1..]);
      ValueOfDecimal(o[0]);
      assert parts == [parts[0]] + parts[1..];
      assert o == [o[0]] + o[1..];
    }
  }

  /** Reading undoes printing. */
  lemma OidKeyOfDotted(o: Oid)
    requires o != []
    ensures OidKey(Dotted(o)) == o
  {
    SplitOfDotted(o);
    ValuesOf(Split(Dotted(o)), o);
  }

  lemma DottedInjective(a: Oid, b: Oid)
    requires a != [] && b != [] && Dotted(a) == Dotted(b)
    ensures a == b
  {
    OidKeyOfDotted(a);
    OidKeyOfDotted(b);
  }

  lemma {:induction false} FirstDotOfPrefix(s: string, p: string)
    requires StartsWith(s, p) && FirstDot(p) < |p|
    ensures FirstDot(s) == FirstDot(p)
  {
    assert s[0] == s[..|p|][0];
    if p[0] != '.' {
      assert s[1..][..|p| - 1] == s[..|p|][1..];
      FirstDotOfPrefix(s[1..], p[1..]);
    }
  }

  /** A number, a dot and the rest determine the number and the rest. */
  lemma SameHead(a: string, b: string, restA: string, restB: string)
    requires AllDigits(a) && AllDigits(b) && StartsWith(a + "." + restA, b + "." + restB)
    ensures a == b && StartsWith(restA, restB)
  {
    var s, p := a + "." + restA, b + "." + restB;
    FirstDotOf(a, restA);
    FirstDotOf(b, restB);
    FirstDotOfPrefix(s, p);
    assert s[..|a|] == a && p[..|b|] == b && s[..|p|][..|b|] == s[..|b|];
    assert restA[..|restB|] == s[..|p|][|b| + 1..];
    assert restB == p[|b| + 1..];
  }

  lemma {:induction false} DottedAppends(base: Oid, index: Oid)
    requires base != [] && index != []
    ensures Dotted(base + index) == Dotted(base) + "." + Dotted(index)
  {
    if |base| == 1 {
      assert (base + index)[1..] == index;
    } else {
      assert (base + index)[1..] == base[1..] + index;
      DottedAppends(base[1..], index);
    }
  }

  /** `oid.startswith(base + ".")` is membership in the subtree of `base`. */
  lemma StartsWithIsUnder(base: Oid, o: Oid)
    requires base != [] && o != []
    ensures StartsWith(Dotted(o), Dotted(base) + ".") <==> Under(base, o)
  {
    if Under(base, o) {
      DottedAppends(base, Index(base, o));
      assert StartsWith(Dotted(o), Dotted(base) + ".");
    }
    if StartsWith(Dotted(o), Dotted(base) + ".") {
      StartsOnlyUnder(base, o);
    }
  }

  lemma {:induction false} StartsOnlyUnder(base: Oid, o: Oid)
    requires base != [] && o != [] && StartsWith(Dotted(o), Dotted(base) + ".")
    ensures Under(base, o)
  {
    var head, front := Decimal(o[0]), Decimal(base[0]);
    var rest := if |base| == 1 then "" else Dotted(base[1..]) + ".";
    assert Dotted(base) + "." == front + "." + rest;
    if |o| == 1 {
      FirstDotOf(front, rest);
      FirstDotOfPrefix(head, front + "." + rest);
      FirstDotOf(head, "");
    } else {
      SameHead(head, front, Dotted(o[1..]), rest);
      ValueOfDecimal(o[0]);
      ValueOfDecimal(base[0]);
      if |base| > 1 {
        StartsOnlyUnder(base[1..], o[1..]);
      }
      assert o == [o[0]] + o[1..] && base == [base[0]] + base[1..];
      assert o[..|base|] == [o[0]] + o[1..][..|base| - 1];
    }
  }

  /** `oid[len(base) + 1:]` is the printed index. */
  lemma SliceIsIndex(base: Oid, o: Oid)
    requires base != [] && Under(base, o)
    ensures From(Dotted(o), |Dotted(base)| + 1) == Dotted(Index(base, o))
  {
    DottedAppends(base, Index(base, o));
  }

  /** The text the walk handles and the OIDs it stands for agree: subtree test, comparison
      key and row index are the same, and different indexes print differently. */
  lemma TextIsOid(base: Oid, o: Oid, p: Oid)
    requires base != [] && o != [] && p != []
    ensures StartsWith(Dotted(o), Dotted(base) + ".") <==> Under(base, o)
    ensures OidKey(Dotted(o)) == o
    ensures Under(base, o) ==> From(Dotted(o), |Dotted(base)| + 1) == Dotted(Index(base, o))
    ensures Under(base, o) && Under(base, p) ==>
              (Dotted(Index(base, o)) == Dotted(Index(base, p)) <==> o == p)
  {
    StartsWithIsUnder(base, o);
    OidKeyOfDotted(o);
    if Under(base, o) {
      SliceIsIndex(base, o);
      if Under(base, p) && Dotted(Index(base, o)) == Dotted(Index(base, p)) {
        DottedInjective(Index(base, o), Index(base, p));
        assert base + Index(base, o) == base + Index(base, p);
      }
    }
  }
}
