/** The text forms a property edit reads and writes: declared enum names and whole numbers of 32 bits. */
module Scalars {
  import opened Prelude

  const MAX_UINT32: int := 0xFFFF_FFFF

  /** The declared names of an enum, numbered from zero. */
  const EFFECT_CLASSES: seq<string> :=
    ["EFFECT_CLASS_UNSPECIFIED", "EFFECT_CLASS_PURE", "EFFECT_CLASS_IDEMPOTENT", "EFFECT_CLASS_AT_MOST_ONCE"]
  const LEASE_SCOPES: seq<string> :=
    ["LEASE_SCOPE_UNSPECIFIED", "LEASE_SCOPE_STEP", "LEASE_SCOPE_JOB",
     "LEASE_SCOPE_PIPELINE", "LEASE_SCOPE_POOL", "LEASE_SCOPE_SERVICE"]
  const CAPABILITIES: seq<string> :=
    ["CAPABILITY_UNSPECIFIED", "CAPABILITY_NETWORK", "CAPABILITY_SECRETS", "CAPABILITY_PRIVILEGED",
     "CAPABILITY_HOST_MOUNT", "CAPABILITY_NESTED_VIRT"]

  const PURE: int := 1
  const AT_MOST_ONCE: int := 3

  predicate Declared(names: seq<string>, n: int) {
    0 <= n < |names|
  }

  /** The name of a value; a value no build declares has none. */
  function NameOf(names: seq<string>, n: int): (r: string) {
    if Declared(names, n) then names[n] else ""
  }

  function ValueOf(names: seq<string>, name: string): (r: Option<int>)
    ensures r.Some? ==> Declared(names, r.value) && names[r.value] == name
    ensures r.None? ==> name !in names
  {
    if names == [] then None
    else if names[0] == name then Some(0)
    else match ValueOf(names[1..], name) case None => None case Some(n) => Some(n + 1)
  }

  predicate ProperNames(names: seq<string>) {
    (forall i, j :: 0 <= i < j < |names| ==> names[i] != names[j]) && "" !in names
  }

  /** Exactly the declared values survive being written out and read back. */
  lemma NameRoundTrip(names: seq<string>, n: int)
    requires ProperNames(names)
    ensures ValueOf(names, NameOf(names, n)) == Some(n) <==> Declared(names, n)
    ensures !Declared(names, n) ==> ValueOf(names, NameOf(names, n)).None?
  {
    if Declared(names, n) {
      assert names[n] in names;
    }
  }

  lemma EnumsAreProper()
    ensures ProperNames(EFFECT_CLASSES) && ProperNames(LEASE_SCOPES)
    ensures NameOf(EFFECT_CLASSES, PURE) == "EFFECT_CLASS_PURE"
    ensures NameOf(EFFECT_CLASSES, AT_MOST_ONCE) == "EFFECT_CLASS_AT_MOST_ONCE"
  {
    var e, l := EFFECT_CLASSES, LEASE_SCOPES;
    assert |e[0]| == 24 && |e[1]| == 17 && |e[2]| == 23 && |e[3]| == 25;
    assert |l[0]| == 23 && |l[1]| == 16 && |l[2]| == 15 && |l[3]| == 20 && |l[4]| == 16 && |l[5]| == 19;
    assert l[1][12] == 'S' && l[4][12] == 'P';
  }

  predicate IsDigit(c: char) { '0' <= c <= '9' }

  predicate AllDigits(s: string) { forall i :: 0 <= i < |s| ==> IsDigit(s[i]) }

  function Numeral(s: string): (r: nat)
    requires AllDigits(s)
  {
    if s == [] then 0 else Numeral(s[..|s| - 1]) * 10 + (s[|s| - 1] as int - '0' as int)
  }

  /** strconv.ParseUint in base ten for 32 bits: nothing but digits, and no overflow. */
  function ParseUint32(s: string): (r: Option<nat>)
    ensures r.Some? ==> r.value <= MAX_UINT32
  {
    if s != "" && AllDigits(s) && Numeral(s) <= MAX_UINT32 then Some(Numeral(s)) else None
  }

  function FormatUint(n: nat): (r: string)
    ensures r != "" && AllDigits(r)
  {
    if n < 10 then [('0' as int + n) as char] else FormatUint(n / 10) + [('0' as int + n % 10) as char]
  }

  lemma {:induction false} FormatIsNumeral(n: nat)
    ensures Numeral(FormatUint(n)) == n
  {
    var s := FormatUint(n);
    if n < 10 {
      assert s[..0] == [];
    } else {
      FormatIsNumeral(n / 10);
      assert s[..|s| - 1] == FormatUint(n / 10);
    }
  }

  lemma UintRoundTrip(n: nat)
    requires n <= MAX_UINT32
    ensures ParseUint32(FormatUint(n)) == Some(n)
  {
    FormatIsNumeral(n);
  }

  /** A letter or underscore, then letters, digits and underscores. */
  predicate IsEnvName(s: string) {
    s != "" && forall i :: 0 <= i < |s| ==>
      || s[i] == '_' || 'A' <= s[i] <= 'Z' || 'a' <= s[i] <= 'z'
      || (IsDigit(s[i]) && i > 0)
  }

  const UPPER := "ABCDEFGHIJKLMNOPQRSTUVWXYZ"
  const LOWER := "abcdefghijklmnopqrstuvwxyz"
  const DIGITS := "0123456789"

  predicate StartsName(c: char) { c in UPPER || c in LOWER || c == '_' }

  /** Any run of characters a name may go on with. */
  predicate GoesOn(s: string) {
    s == "" || ((StartsName(s[0]) || s[0] in DIGITS) && GoesOn(s[1..]))
  }

  lemma UpperMeans(c: char)
    ensures c in UPPER <==> 'A' <= c <= 'Z'
  {
    assert 'A' <= c <= 'Z' ==> UPPER[c as int - 'A' as int] == c;
  }

  lemma LowerMeans(c: char)
    ensures c in LOWER <==> 'a' <= c <= 'z'
  {
    assert 'a' <= c <= 'z' ==> LOWER[c as int - 'a' as int] == c;
  }

  lemma DigitsMean(c: char)
    ensures c in DIGITS <==> IsDigit(c)
  {
    assert IsDigit(c) ==> DIGITS[c as int - '0' as int] == c;
  }

  lemma StartMeans(c: char)
    ensures StartsName(c) <==> c == '_' || 'A' <= c <= 'Z' || 'a' <= c <= 'z'
  {
    UpperMeans(c);
    LowerMeans(c);
  }

  /** Every character but the first may also be a digit. */
  predicate InName(c: char) { c == '_' || 'A' <= c <= 'Z' || 'a' <= c <= 'z' || IsDigit(c) }

  lemma {:induction false} GoesOnMeans(s: string)
    ensures GoesOn(s) <==> forall c <- s :: InName(c)
  {
    if s != "" {
      StartMeans(s[0]);
      DigitsMean(s[0]);
      GoesOnMeans(s[1..]);
      assert InName(s[0]) <==> StartsName(s[0]) || s[0] in DIGITS;
      assert forall c :: c in s <==> c == s[0] || c in s[1..];
      assert (forall c <- s :: InName(c)) <==> InName(s[0]) && (forall c <- s[1..] :: InName(c));
    }
  }

  /** A name is one letter or underscore, then any run of letters, digits and underscores. */
  lemma EnvNameMeans(s: string)
    ensures IsEnvName(s) <==> s != "" && StartsName(s[0]) && GoesOn(s[1..])
  {
    if s != "" {
      StartMeans(s[0]);
      GoesOnMeans(s[1..]);
      if IsEnvName(s) {
        forall c | c in s[1..] ensures InName(c) {
          var i :| 0 <= i < |s| - 1 && s[1..][i] == c;
          assert s[i + 1] == c;
        }
      } else if StartsName(s[0]) {
        var i :| 0 < i < |s| && !InName(s[i]);
        assert s[i] in s[1..];
      }
    }
  }
}
