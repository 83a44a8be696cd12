/**
 * The tracking key of a migration: `dbName` in migrations.go and
 * pgx/migrations.go.  The key is the decimal Unix seconds of the date, an
 * underscore and the name, cut to the 500 bytes the tracking column holds.
 */
module Keys {
  import opened Simple

  /** Width of the tracking column, `VARCHAR(500)`. */
  const MaxKeyLength: nat := 500

  const NanosPerSecond: nat := 1_000_000_000

  /** `time.Time.Unix`: whole seconds since the epoch, rounded towards minus infinity. */
  function UnixSeconds(date: int): int {
    date / NanosPerSecond
  }

  /** The second `UnixSeconds` reports is the one the date falls in. */
  lemma UnixSecondsBounds(date: int)
    ensures UnixSeconds(date) * NanosPerSecond <= date < UnixSeconds(date) * NanosPerSecond + NanosPerSecond
  {
  }

  predicate IsDigit(c: char) {
    '0' <= c <= '9'
  }

  function DigitChar(d: nat): (c: char)
    requires d < 10
    ensures IsDigit(c)
  {
    ('0' as int + d) as char
  }

  function DigitValue(c: char): (d: nat)
    requires IsDigit(c)
    ensures d < 10
  {
    c as int - '0' as int
  }

  predicate AllDigits(s: string) {
    forall i :: 0 <= i < |s| ==> IsDigit(s[i])
  }

  /** Decimal digits of a natural number, without leading zeros ("0" for zero). */
  function Digits(n: nat): (r: string)
    ensures |r| >= 1
    decreases n
  {
    if n < 10 then [DigitChar(n)] else Digits(n / 10) + [DigitChar(n % 10)]
  }

  /** `Digits` writes only digits, and no leading zero. */
  lemma {:induction false} DigitsWellFormed(n: nat)
    ensures AllDigits(Digits(n))
    ensures |Digits(n)| > 1 ==> Digits(n)[0] != '0'
    decreases n
  {
    if n >= 10 {
      DigitsWellFormed(n / 10);
      assert Digits(n)[0] == Digits(n / 10)[0];
    }
  }

  /** Go's `%d` of a signed integer: a minus sign for negative values. */
  function Decimal(i: int): (r: string)
    ensures |r| >= 1
  {
    if i < 0 then "-" + Digits(-i) else Digits(i)
  }

  /** The decimal text of a number holds no underscore, so the key's first underscore ends it. */
  lemma DecimalHasNoUnderscore(i: int)
    ensures '_' !in Decimal(i)
  {
    var d := if i < 0 then -i else i;
    DigitsWellFormed(d);
    assert forall k :: 0 <= k < |Digits(d)| ==> Digits(d)[k] != '_';
  }

  /** Reads back a string of decimal digits. */
  function ParseDigits(s: string): nat
    requires AllDigits(s)
  {
    if s == [] then 0 else ParseDigits(s[..|s| - 1]) * 10 + DigitValue(s[|s| - 1])
  }

  /** Reads back `Decimal`'s output. */
  function ParseDecimal(s: string): int
    requires |s| >= 1
    requires if s[0] == '-' then AllDigits(s[1..]) else AllDigits(s)
  {
    if s[0] == '-' then -(ParseDigits(s[1..]) as int) else ParseDigits(s)
  }

  lemma {:induction false} DigitsRoundTrip(n: nat)
    ensures AllDigits(Digits(n)) && ParseDigits(Digits(n)) == n
    decreases n
  {
    DigitsWellFormed(n);
    if n >= 10 {
      var r := Digits(n);
      assert r[..|r| - 1] == Digits(n / 10);
      DigitsRoundTrip(n / 10);
    }
  }

  /** `Decimal` loses nothing: the number can be read back from its text. */
  lemma DecimalRoundTrip(i: int)
    ensures var r := Decimal(i);
      (if r[0] == '-' then AllDigits(r[1..]) else AllDigits(r)) && ParseDecimal(r) == i
  {
    var r := Decimal(i);
    if i < 0 {
      assert r[1..] == Digits(-i);
      DigitsRoundTrip(-i);
    } else {
      DigitsRoundTrip(i);
    }
  }

  lemma DecimalInjective(i: int, j: int)
    ensures Decimal(i) == Decimal(j) <==> i == j
  {
    DecimalRoundTrip(i);
    DecimalRoundTrip(j);
  }

  /** The text `fmt.Sprintf("%d_%s", mig.Date().Unix(), mig.Name())` before truncation. */
  function FullKey<S>(m: SimpleMigration<S>): string {
    Decimal(UnixSeconds(Date(m))) + "_" + Name(m)
  }

  /** The tracking key: the first `min(500, len)` bytes of the full key. */
  function DbName<S>(m: SimpleMigration<S>): (r: string)
    ensures |r| <= MaxKeyLength
    ensures r <= FullKey(m)
    ensures |FullKey(m)| <= MaxKeyLength ==> r == FullKey(m)
    ensures |FullKey(m)| > MaxKeyLength ==> |r| == MaxKeyLength
  {
    var migStr := FullKey(m);
    var n := if |migStr| > MaxKeyLength then MaxKeyLength else |migStr|;
    migStr[..n]
  }

  /** Position of the first underscore of `s`, or `|s|` when there is none. */
  function UnderscoreIndex(s: string): (i: nat)
    ensures i <= |s|
  {
    if s == [] then 0 else if s[0] == '_' then 0 else 1 + UnderscoreIndex(s[1..])
  }

  lemma {:induction false} UnderscoreIndexAfter(p: string, rest: string)
    requires '_' !in p && |rest| >= 1 && rest[0] == '_'
    ensures UnderscoreIndex(p + rest) == |p|
  {
    if p != [] {
      assert (p + rest)[1..] == p[1..] + rest;
      UnderscoreIndexAfter(p[1..], rest);
    } else {
      assert p + rest == rest;
    }
  }

  /** Splitting at the first underscore recovers both halves of a key. */
  lemma SplitAtUnderscore(p: string, x: string, q: string, y: string)
    requires '_' !in p && '_' !in q
    requires p + "_" + x == q + "_" + y
    ensures p == q && x == y
  {
    var k := p + "_" + x;
    assert k == p + ("_" + x) && k == q + ("_" + y);
    UnderscoreIndexAfter(p, "_" + x);
    UnderscoreIndexAfter(q, "_" + y);
    assert p == k[..|p|] == q;
    assert x == k[|p| + 1..] == y;
  }

  /** Two migrations share a full key exactly when they share Unix second and name. */
  lemma FullKeyInjective<S>(a: SimpleMigration<S>, b: SimpleMigration<S>)
    ensures FullKey(a) == FullKey(b) <==>
      UnixSeconds(Date(a)) == UnixSeconds(Date(b)) && Name(a) == Name(b)
  {
    if FullKey(a) == FullKey(b) {
      DecimalHasNoUnderscore(UnixSeconds(Date(a)));
      DecimalHasNoUnderscore(UnixSeconds(Date(b)));
      SplitAtUnderscore(Decimal(UnixSeconds(Date(a))), Name(a), Decimal(UnixSeconds(Date(b))), Name(b));
      DecimalInjective(UnixSeconds(Date(a)), UnixSeconds(Date(b)));
    }
  }

  /**
   * Keys that fit the column tell migrations apart; only keys longer than
   * 500 bytes can collide after truncation.
   */
  lemma ShortDbNamesDistinguish<S>(a: SimpleMigration<S>, b: SimpleMigration<S>)
    requires |FullKey(a)| <= MaxKeyLength && |FullKey(b)| <= MaxKeyLength
    ensures DbName(a) == DbName(b) <==>
      UnixSeconds(Date(a)) == UnixSeconds(Date(b)) && Name(a) == Name(b)
  {
    FullKeyInjective(a, b);
  }
}
