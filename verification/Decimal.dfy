/** Non-negative integers as decimal strings, for keys of a serialised dictionary. */
module Decimal {
  import opened Common

  function Digit(d: nat): char
    requires d < 10
  {
    ('0' as int + d) as char
  }

  function DigitValue(c: char): nat {
    if '0' <= c <= '9' then c as int - '0' as int else 0
  }

  function Str(n: nat): string {
    if n < 10 then [Digit(n)] else Str(n / 10) + [Digit(n % 10)]
  }

  /** The value of digits, between which underscores may stand. */
  function ParseInt(s: string): nat {
    if s == [] then 0
    else if s[|s| - 1] == '_' then ParseInt(s[..|s| - 1])
    else 10 * ParseInt(s[..|s| - 1]) + DigitValue(s[|s| - 1])
  }

  lemma {:induction false} ParseStr(n: nat)
    ensures ParseInt(Str(n)) == n
  {
    if n < 10 {
      assert ParseInt([]) == 0;
    } else {
      ParseStr(n / 10);
      assert Str(n)[..|Str(n)| - 1] == Str(n / 10);
    }
  }

  /** The keys str() writes. */
  predicate Canonical(s: string) {
    Str(ParseInt(s)) == s
  }

  function EncodeKeys<T>(m: map<nat, T>): (e: map<string, T>)
    ensures forall k :: k in m ==> Str(k) in e && e[Str(k)] == m[k]
    ensures forall s :: s in e ==> exists k :: k in m && Str(k) == s
  {
    StrIsInjective();
    map k | k in m :: Str(k) := m[k]
  }

  lemma StrIsInjective()
    ensures forall i: nat, j: nat :: Str(i) == Str(j) ==> i == j
  {
    forall i: nat, j: nat | Str(i) == Str(j) ensures i == j {
      ParseStr(i);
      ParseStr(j);
    }
  }

  lemma CanonicalIsInjective()
    ensures forall a, b :: Canonical(a) && Canonical(b) && ParseInt(a) == ParseInt(b) ==> a == b
  {
  }

  function DecodeKeys<T>(m: map<string, T>): map<nat, T>
    requires forall k :: k in m ==> Canonical(k)
  {
    CanonicalIsInjective();
    map k | k in m :: ParseInt(k) := m[k]
  }

  /** Writing integer keys as strings and reading them back changes nothing. */
  lemma DecodeEncode<T>(m: map<nat, T>)
    ensures forall k :: k in EncodeKeys(m) ==> Canonical(k)
    ensures DecodeKeys(EncodeKeys(m)) == m
  {
    var e := EncodeKeys(m);
    forall k | k in e ensures Canonical(k) && ParseInt(k) in m && m[ParseInt(k)] == e[k] {
      var i :| i in m && Str(i) == k;
      ParseStr(i);
    }
    forall i | i in m ensures i in DecodeKeys(e) {
      ParseStr(i);
      assert Str(i) in e;
    }
  }

  // ---- Reading keys that may be anything ----

  predicate IsDigit(c: char) {
    '0' <= c <= '9'
  }

  predicate IsBlank(c: char) {
    9 <= c as int <= 13 || 28 <= c as int <= 32
  }

  /** Digits, with single underscores between them. */
  predicate IsNumeral(s: string) {
    && s != [] && IsDigit(s[0]) && IsDigit(s[|s| - 1])
    && (forall i :: 0 <= i < |s| ==> IsDigit(s[i]) || s[i] == '_')
    && (forall i :: 0 < i < |s| && s[i] == '_' ==> s[i - 1] != '_')
  }

  /** What int() reads: blanks around it, a sign, and a numeral. An id is not negative. */
  function ReadInt(s: string): Option<nat> {
    var text := Strip(s, IsBlank);
    var signed := text != [] && text[0] in "+-";
    var digits := if signed then text[1..] else text;
    if !IsNumeral(digits) || (signed && text[0] == '-' && ParseInt(digits) > 0) then None else Some(ParseInt(digits))
  }

  lemma {:induction false} StrIsDigits(n: nat)
    ensures Str(n) != [] && forall i :: 0 <= i < |Str(n)| ==> IsDigit(Str(n)[i])
  {
    if n >= 10 {
      StrIsDigits(n / 10);
    }
  }

  lemma StrIsRead(n: nat)
    ensures ReadInt(Str(n)) == Some(n)
  {
    StrIsDigits(n);
    ParseStr(n);
    DigitsAreRead(Str(n));
  }

  lemma DigitsAreRead(s: string)
    requires s != [] && forall i :: 0 <= i < |s| ==> IsDigit(s[i])
    ensures ReadInt(s) == Some(ParseInt(s))
  {
    assert IsDigit(s[0]) && IsDigit(s[|s| - 1]);
    assert Strip(s, IsBlank) == s;
  }

  /** Every key is read; of keys that read the same one gives the value. */
  ghost predicate Decodes<T>(m: map<string, T>, out: map<nat, T>) {
    && (forall k :: k in m ==> ReadInt(k).Some? && ReadInt(k).value in out)
    && (forall i :: i in out ==> exists k :: k in m && ReadInt(k) == Some(i) && out[i] == m[k])
  }

  method ReadKeys<T>(m: map<string, T>) returns (out: Option<map<nat, T>>)
    ensures out.None? <==> exists k :: k in m && ReadInt(k).None?
    ensures out.Some? ==> Decodes(m, out.value)
  {
    var read: map<nat, T> := map[];
    var todo := m.Keys;
    while todo != {}
      invariant todo <= m.Keys
      invariant forall k :: k in m && k !in todo ==> ReadInt(k).Some? && ReadInt(k).value in read
      invariant forall i :: i in read ==> exists k :: k in m && ReadInt(k) == Some(i) && read[i] == m[k]
      decreases todo
    {
      var k :| k in todo;
      var id := ReadInt(k);
      if id.None? {
        return None;
      }
      read := read[id.value := m[k]];
      todo := todo - {k};
    }
    out := Some(read);
  }

  /** Keys that str() wrote are read back, and nothing else can come of them. */
  lemma CanonicalKeysAreRead<T>(m: map<string, T>)
    requires forall k :: k in m ==> Canonical(k)
    ensures forall k :: k in m ==> ReadInt(k).Some?
    ensures forall out :: Decodes(m, out) ==> out == DecodeKeys(m)
  {
    forall k | k in m ensures ReadInt(k) == Some(ParseInt(k)) {
      StrIsRead(ParseInt(k));
    }
    forall out | Decodes(m, out) ensures out == DecodeKeys(m) {
      DecodesOneWay(m, out);
    }
  }

  lemma DecodesOneWay<T>(m: map<string, T>, out: map<nat, T>)
    requires Decodes(m, out) && forall k :: k in m ==> Canonical(k) && ReadInt(k) == Some(ParseInt(k))
    ensures out == DecodeKeys(m)
  {
    CanonicalIsInjective();
    var keys := DecodeKeys(m);
    forall i | i in out ensures i in keys && keys[i] == out[i] {
      var k :| k in m && ReadInt(k) == Some(i) && out[i] == m[k];
    }
    forall k | k in m ensures ParseInt(k) in out {
    }
  }
}
