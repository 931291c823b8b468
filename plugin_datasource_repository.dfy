/**
 * The hash that holds a tenant's plugin datasources. The template
 * `plugin:datasource:%s` is filled with the tenant id's decimal rendering, or
 * with `*` when there is no tenant; this naming is the only thing that keeps
 * one tenant's datasources apart from another's.
 */
module PluginDatasourceRepository {
  import opened JavaLang
  import opened RedisHelper

  /** The template up to its one substitution point. */
  const KeyPrefix: string := "plugin:datasource:"

  /** The wildcard segment substituted for an absent tenant. */
  const Star: string := "*"

  function DigitChar(d: nat): (c: char)
    requires d < 10
    ensures '0' <= c <= '9'
    ensures c as int - '0' as int == d
  {
    (('0' as int) + d) as char
  }

  /** The decimal digits of `n`, most significant first, with no leading zero. */
  function Digits(n: nat): (s: string)
    ensures |s| >= 1
    ensures n < 10 <==> |s| == 1
    ensures forall i :: 0 <= i < |s| ==> '0' <= s[i] <= '9'
    ensures |s| > 1 ==> s[0] != '0'
    decreases n
  {
    if n < 10 then [DigitChar(n)] else Digits(n / 10) + [DigitChar(n % 10)]
  }

  /** `Long.toString`: a minus sign for a negative value, then the digits of its magnitude. */
  function Decimal(n: Long): (s: string)
    ensures |s| >= 1
    ensures s[0] == '-' <==> n < 0
    ensures forall i :: 0 <= i < |s| ==> s[i] == '-' || '0' <= s[i] <= '9'
    ensures n < 0 ==> |s| >= 2 && s[1] != '0'
    ensures n >= 0 && |s| > 1 ==> s[0] != '0'
  {
    if n < 0 then "-" + Digits(-(n as int)) else Digits(n)
  }

  /** `String.format` of the template with one segment. */
  function Format(segment: string): string {
    KeyPrefix + segment
  }

  /** `getKey`: the tenant's hash name, or the all-tenants pattern for a null tenant. */
  function GetKey(tenantId: Option<Long>): (key: string)
    ensures tenantId == None ==> key == "plugin:datasource:*"
    ensures tenantId != None ==> key == "plugin:datasource:" + Decimal(tenantId.value)
  {
    match tenantId
    case None => Format(Star)
    case Some(t) => Format(Decimal(t))
  }

  /** The number a string of decimal digits denotes, most significant first (Horner's rule). */
  function DigitsValue(s: string): nat
    requires forall i :: 0 <= i < |s| ==> '0' <= s[i] <= '9'
  {
    if s == [] then 0 else DigitsValue(s[..|s| - 1]) * 10 + (s[|s| - 1] as int - '0' as int)
  }

  /** Reading the digits back gives the number they were written from. */
  lemma {:induction false} DigitsRoundTrip(n: nat)
    ensures DigitsValue(Digits(n)) == n
    decreases n
  {
    if n >= 10 {
      var d := Digits(n);
      assert d[..|d| - 1] == Digits(n / 10);
      DigitsRoundTrip(n / 10);
    }
  }

  /** The number a `Long.toString` text denotes: an optional minus sign, then digits. */
  function DecimalValue(s: string): int
    requires |s| >= 1
    requires forall i :: 0 <= i < |s| ==> s[i] == '-' || '0' <= s[i] <= '9'
    requires forall i :: 1 <= i < |s| ==> '0' <= s[i] <= '9'
  {
    if s[0] == '-' then -(DigitsValue(s[1..]) as int) else DigitsValue(s)
  }

  /** `Long.toString` renders the value itself: parsing the text back gives `n`. */
  lemma DecimalRoundTrip(n: Long)
    ensures forall i :: 1 <= i < |Decimal(n)| ==> '0' <= Decimal(n)[i] <= '9'
    ensures DecimalValue(Decimal(n)) == n
  {
    if n < 0 {
      assert Decimal(n)[1..] == Digits(-(n as int));
      DigitsRoundTrip(-(n as int));
    } else {
      DigitsRoundTrip(n);
    }
  }

  /** Digits that do not start with `0` denote a positive number. */
  lemma {:induction false} LeadingDigitPositive(s: string)
    requires |s| >= 1 && s[0] != '0'
    requires forall i :: 0 <= i < |s| ==> '0' <= s[i] <= '9'
    ensures DigitsValue(s) >= 1
    decreases |s|
  {
    if |s| > 1 {
      LeadingDigitPositive(s[..|s| - 1]);
    }
  }

  /** The digits of `m` are the only digit string without a leading zero that denotes `m`. */
  lemma {:induction false} DigitsCanonical(t: string, m: nat)
    requires |t| >= 1
    requires forall i :: 0 <= i < |t| ==> '0' <= t[i] <= '9'
    requires |t| > 1 ==> t[0] != '0'
    requires DigitsValue(t) == m
    ensures t == Digits(m)
    decreases |t|
  {
    var p, c := t[..|t| - 1], t[|t| - 1];
    var d := c as int - '0' as int;
    if |t| == 1 {
      assert DigitChar(d) == c;
    } else {
      LeadingDigitPositive(p);
      DigitsCanonical(p, m / 10);
      assert DigitChar(m % 10) == c;
      assert t == p + [c];
    }
  }

  /**
   * `Long.toString` gives the canonical text: any text with an optional minus
   * sign, then digits with no leading zero (and no `-0`), that denotes `n` is
   * `Decimal(n)`.
   */
  lemma DecimalCanonical(t: string, n: Long)
    requires |t| >= 1
    requires forall i :: 0 <= i < |t| ==> t[i] == '-' || '0' <= t[i] <= '9'
    requires forall i :: 1 <= i < |t| ==> '0' <= t[i] <= '9'
    requires t[0] == '-' ==> |t| >= 2 && t[1] != '0'
    requires t[0] != '-' && |t| > 1 ==> t[0] != '0'
    requires DecimalValue(t) == n
    ensures t == Decimal(n)
  {
    if t[0] == '-' {
      var d := t[1..];
      LeadingDigitPositive(d);
      DigitsCanonical(d, -(n as int));
      assert t == "-" + d;
    } else {
      DigitsCanonical(t, n);
    }
  }

  /** Different numbers have different digits. */
  lemma DigitsInjective(a: nat, b: nat)
    requires Digits(a) == Digits(b)
    ensures a == b
  {
    DigitsRoundTrip(a);
    DigitsRoundTrip(b);
  }

  /** `Long.toString` is injective. */
  lemma DecimalInjective(a: Long, b: Long)
    requires Decimal(a) == Decimal(b)
    ensures a == b
  {
    DecimalRoundTrip(a);
    DecimalRoundTrip(b);
  }

  /** Tenant isolation: two tenant values share a hash exactly when they are equal. */
  lemma GetKeyInjective(a: Option<Long>, b: Option<Long>)
    ensures GetKey(a) == GetKey(b) <==> a == b
  {
    if GetKey(a) == GetKey(b) {
      var ka, kb := GetKey(a), GetKey(b);
      assert ka[|KeyPrefix|..] == kb[|KeyPrefix|..];
      match (a, b)
      case (None, None) =>
      case (Some(x), Some(y)) =>
        assert ka[|KeyPrefix|..] == Decimal(x);
        assert kb[|KeyPrefix|..] == Decimal(y);
        DecimalInjective(x, y);
      case _ =>
    }
  }

  /** The segment after the prefix of a tenant's hash name reads back as the tenant id. */
  lemma GetKeySegmentRoundTrip(t: Long)
    ensures KeyPrefix <= GetKey(Some(t))
    ensures GetKey(Some(t))[|KeyPrefix|..] == Decimal(t)
    ensures DecimalValue(GetKey(Some(t))[|KeyPrefix|..]) == t
  {
    assert GetKey(Some(t))[|KeyPrefix|..] == Decimal(t);
    DecimalRoundTrip(t);
  }

  /** A tenant's hash name holds no `*`, so it is never the all-tenants pattern. */
  lemma TenantKeyIsNotPattern(t: Long)
    ensures '*' !in GetKey(Some(t))
    ensures GetKey(Some(t)) != GetKey(None)
  {
    var key := GetKey(Some(t));
    forall i | 0 <= i < |key| ensures key[i] != '*' {
      if i >= |KeyPrefix| {
        assert key[i] == Decimal(t)[i - |KeyPrefix|];
      }
    }
    GetKeyInjective(Some(t), None);
  }

  /**
   * The all-tenants pattern matches exactly the names that start with the
   * template's prefix.
   */
  lemma PatternMatchesPrefix()
    ensures forall name :: MatchesPattern(GetKey(None), name) <==> KeyPrefix <= name
  {
    var pattern := GetKey(None);
    assert pattern[..|pattern| - 1] == KeyPrefix;
  }

  /**
   * The all-tenants pattern matches every tenant's hash name, and the literal
   * hash that a null tenant reads and writes.
   */
  lemma PatternCoversTenantKeys(t: Option<Long>)
    ensures MatchesPattern(GetKey(None), GetKey(t))
  {
    PatternMatchesPrefix();
    assert GetKey(t)[..|KeyPrefix|] == KeyPrefix;
  }
}
