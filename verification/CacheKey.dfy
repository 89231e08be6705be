/** The cache key of a step: what is hashed, and that it says exactly what the step is. */
module CacheKey {
  import opened Prelude
  import opened Orders
  import opened Definition
  import opened Scalars
  import opened Frames

  const KEY_SCHEMA := "dhole.cache.key/v1"
  const KEY_ALGO := "sha256"

  datatype NotCacheable = NotPure | NoEnvironment

  type Pair = (string, string)

  /** compareDigest and, on a map's own keys, the order of names: the whole of both halves. */
  predicate PairLeq(a: Pair, b: Pair) {
    if a.0 == b.0 then StringLeq(a.1, b.1) else StringLeq(a.0, b.0)
  }

  lemma PairOrder()
    ensures TotalOrder(PairLeq)
  {
    StringOrder();
  }

  function PairOf(d: Digest): (r: Pair) { (d.algo, d.hex) }

  function DigestPairs(ds: seq<Digest>): (r: seq<Pair>)
    ensures |r| == |ds|
  {
    seq(|ds|, i requires 0 <= i < |ds| => PairOf(ds[i]))
  }

  /** Both halves of every pair, framed, in order. */
  function WritePairs(pairs: seq<Pair>): (r: string) {
    if pairs == [] then "" else Frame(pairs[0].0) + Frame(pairs[0].1) + WritePairs(pairs[1..])
  }

  ghost function Enumerate(s: set<string>): (r: seq<string>)
    ensures multiset(r) == multiset(s)
  {
    if s == {} then []
    else
      var x :| x in s;
      assert multiset(s) == multiset{x} + multiset(s - {x});
      [x] + Enumerate(s - {x})
  }

  ghost function SortedNames(lockfile: map<string, string>): (r: seq<string>)
    ensures multiset(r) == multiset(lockfile.Keys)
  {
    Sort(Enumerate(lockfile.Keys), StringLeq)
  }

  /** Each name with its pin. */
  function Pins(names: seq<string>, lockfile: map<string, string>): (r: seq<Pair>)
    requires forall n :: n in names ==> n in lockfile
    ensures |r| == |names|
  {
    seq(|names|, i requires 0 <= i < |names| => (names[i], lockfile[names[i]]))
  }

  ghost function LockPairs(lockfile: map<string, string>): (r: seq<Pair>)
    ensures |r| == |lockfile|
  {
    NamesAreKeys(SortedNames(lockfile), lockfile);
    Pins(SortedNames(lockfile), lockfile)
  }

  lemma NamesAreKeys(names: seq<string>, lockfile: map<string, string>)
    requires multiset(names) == multiset(lockfile.Keys)
    ensures |names| == |lockfile| && forall n :: n in names <==> n in lockfile
  {
    assert |multiset(names)| == |names| && |multiset(lockfile.Keys)| == |lockfile.Keys|;
    forall n ensures n in names <==> n in lockfile {
      assert n in names <==> n in multiset(names);
      assert n in lockfile.Keys <==> n in multiset(lockfile.Keys);
    }
  }

  /** What a pipeline step's key is taken over. */
  datatype Request = Request(pluginRef: string, env: string, inputs: seq<Digest>, lockfile: map<string, string>)

  ghost function Repeated(pairs: seq<Pair>): (r: string) {
    Word(|pairs|) + WritePairs(pairs)
  }

  /** The bytes hashed into a key. */
  ghost function Material(q: Request): (r: string) {
    Frame(KEY_SCHEMA) + Frame(q.pluginRef) + Frame(q.env)
      + Repeated(Sort(DigestPairs(q.inputs), PairLeq)) + Repeated(LockPairs(q.lockfile))
  }

  // ---- as the loops write it ---------------------------------------------------------------

  method WriteAll(pairs: seq<Pair>) returns (h: string)
    ensures h == WritePairs(pairs)
  {
    h := "";
    var i := 0;
    while i < |pairs|
      invariant 0 <= i <= |pairs| && h + WritePairs(pairs[i..]) == WritePairs(pairs)
    {
      assert pairs[i..][1..] == pairs[i + 1..] && pairs[i..][0] == pairs[i];
      h := h + Frame(pairs[i].0) + Frame(pairs[i].1);
      i := i + 1;
    }
  }

  /** A map's keys come in no particular order. */
  method NamesOf(lockfile: map<string, string>) returns (names: seq<string>)
    ensures multiset(names) == multiset(lockfile.Keys)
  {
    names := [];
    var left := lockfile.Keys;
    while left != {}
      invariant left <= lockfile.Keys && multiset(names) + multiset(left) == multiset(lockfile.Keys)
      decreases left
    {
      var name :| name in left;
      assert multiset(left) == multiset{name} + multiset(left - {name});
      names := names + [name];
      left := left - {name};
    }
  }

  lemma SortedNamesAre(names: seq<string>, lockfile: map<string, string>)
    requires multiset(names) == multiset(lockfile.Keys)
    ensures Sort(names, StringLeq) == SortedNames(lockfile)
  {
    StringOrder();
    SortForgetsOrder(names, Enumerate(lockfile.Keys), StringLeq);
  }

  /** A key exists exactly for a pure step with an environment identity, and is the hash of its material. */
  method Key(step: Step, env: string, inputs: seq<Digest>, lockfile: map<string, string>, sum: string -> string)
    returns (r: Result<Digest, NotCacheable>)
    ensures r.Ok? <==> step.effectClass == PURE && env != ""
    ensures r.Ok? ==> r.value == Digest(KEY_ALGO, sum(Material(Request(step.pluginRef, env, inputs, lockfile))))
    ensures r == Err(NotPure) <==> step.effectClass != PURE
  {
    if step.effectClass != PURE { return Err(NotPure); }
    if env == "" { return Err(NoEnvironment); }
    var h := Frame(KEY_SCHEMA) + Frame(step.pluginRef) + Frame(env);
    var ordered := Sort(DigestPairs(inputs), PairLeq);
    var written := WriteAll(ordered);
    h := h + (Word(|ordered|) + written);
    var names := NamesOf(lockfile);
    SortedNamesAre(names, lockfile);
    names := Sort(names, StringLeq);
    NamesAreKeys(names, lockfile);
    var pins := WriteAll(Pins(names, lockfile));
    h := h + (Word(|names|) + pins);
    r := Ok(Digest(KEY_ALGO, sum(h)));
  }

  // ---- what the bytes say ------------------------------------------------------------------

  predicate ShortPairs(pairs: seq<Pair>) {
    |pairs| < WORD && forall i :: 0 <= i < |pairs| ==> |pairs[i].0| < WORD && |pairs[i].1| < WORD
  }

  lemma {:induction false} PairsCancel(a: seq<Pair>, x: string, b: seq<Pair>, y: string)
    requires ShortPairs(a) && ShortPairs(b) && |a| == |b| && WritePairs(a) + x == WritePairs(b) + y
    ensures a == b && x == y
  {
    if a == [] {
      assert WritePairs(a) + x == x && WritePairs(b) + y == y;
    } else {
      var p, q := a[0], b[0];
      var ra, rb := WritePairs(a[1..]) + x, WritePairs(b[1..]) + y;
      assert WritePairs(a) + x == Frame(p.0) + (Frame(p.1) + ra);
      assert WritePairs(b) + y == Frame(q.0) + (Frame(q.1) + rb);
      FrameCancels(p.0, Frame(p.1) + ra, q.0, Frame(q.1) + rb);
      FrameCancels(p.1, ra, q.1, rb);
      PairsCancel(a[1..], x, b[1..], y);
      assert a == [p] + a[1..] && b == [q] + b[1..];
    }
  }

  lemma RepeatedCancels(a: seq<Pair>, x: string, b: seq<Pair>, y: string)
    requires ShortPairs(a) && ShortPairs(b) && Repeated(a) + x == Repeated(b) + y
    ensures a == b && x == y
  {
    assert Repeated(a) + x == Word(|a|) + (WritePairs(a) + x) && Repeated(b) + y == Word(|b|) + (WritePairs(b) + y);
    WordCancels(|a|, WritePairs(a) + x, |b|, WritePairs(b) + y);
    PairsCancel(a, x, b, y);
  }

  /** Every length fits a word, as the length of any Go string or slice does. */
  ghost predicate Short(q: Request) {
    && |q.pluginRef| < WORD && |q.env| < WORD
    && ShortPairs(DigestPairs(q.inputs)) && ShortPairs(LockPairs(q.lockfile))
  }

  lemma SortedIsShort(pairs: seq<Pair>)
    requires ShortPairs(pairs)
    ensures ShortPairs(Sort(pairs, PairLeq))
  {
    var s := Sort(pairs, PairLeq);
    assert |multiset(pairs)| == |pairs| && |multiset(s)| == |s|;
    forall i | 0 <= i < |s| ensures |s[i].0| < WORD && |s[i].1| < WORD {
      assert s[i] in multiset(s) && s[i] in multiset(pairs);
      var j :| 0 <= j < |pairs| && pairs[j] == s[i];
    }
  }

  lemma {:induction false} PairsAreDigests(ds: seq<Digest>, d: Digest)
    ensures multiset(DigestPairs(ds))[PairOf(d)] == multiset(ds)[d]
  {
    if ds != [] {
      var n := |ds| - 1;
      PairsAreDigests(ds[..n], d);
      assert ds == ds[..n] + [ds[n]];
      assert DigestPairs(ds) == DigestPairs(ds[..n]) + [PairOf(ds[n])];
    }
  }

  lemma SameDigests(ds: seq<Digest>, es: seq<Digest>)
    ensures multiset(DigestPairs(ds)) == multiset(DigestPairs(es)) <==> multiset(ds) == multiset(es)
  {
    if multiset(DigestPairs(ds)) == multiset(DigestPairs(es)) {
      forall d ensures multiset(ds)[d] == multiset(es)[d] {
        PairsAreDigests(ds, d);
        PairsAreDigests(es, d);
      }
    }
    if multiset(ds) == multiset(es) {
      forall p: Pair ensures multiset(DigestPairs(ds))[p] == multiset(DigestPairs(es))[p] {
        PairsAreDigests(ds, Digest(p.0, p.1));
        PairsAreDigests(es, Digest(p.0, p.1));
      }
    }
  }

  lemma SameLockfile(a: map<string, string>, b: map<string, string>)
    requires LockPairs(a) == LockPairs(b)
    ensures a == b
  {
    var m, n := SortedNames(a), SortedNames(b);
    NamesAreKeys(m, a);
    NamesAreKeys(n, b);
    forall i | 0 <= i < |m| ensures m[i] == n[i] && a[m[i]] == b[n[i]] {
      assert LockPairs(a)[i] == LockPairs(b)[i];
    }
    assert m == n;
    forall k | k in a ensures k in b && a[k] == b[k] {
      var i :| 0 <= i < |m| && m[i] == k;
    }
    forall k | k in b ensures k in a {
      assert k in n;
    }
  }

  /**
   Two requests are hashed from the same bytes exactly when they name the same
   plugin and environment, the same inputs in any order, and the same lockfile.
   */
  lemma MaterialIsExact(q: Request, r: Request)
    requires Short(q) && Short(r)
    ensures Material(q) == Material(r) <==>
            && q.pluginRef == r.pluginRef && q.env == r.env && multiset(q.inputs) == multiset(r.inputs)
            && q.lockfile == r.lockfile
  {
    var qi, ri := Sort(DigestPairs(q.inputs), PairLeq), Sort(DigestPairs(r.inputs), PairLeq);
    PairOrder();
    SortForgetsOrder(DigestPairs(q.inputs), DigestPairs(r.inputs), PairLeq);
    SameDigests(q.inputs, r.inputs);
    if Material(q) == Material(r) {
      SortedIsShort(DigestPairs(q.inputs));
      SortedIsShort(DigestPairs(r.inputs));
      FieldsCancel(q.pluginRef, q.env, qi, LockPairs(q.lockfile), r.pluginRef, r.env, ri, LockPairs(r.lockfile));
      SameLockfile(q.lockfile, r.lockfile);
    }
  }

  ghost function Fields(p: string, e: string, inputs: seq<Pair>, pins: seq<Pair>): (r: string) {
    Frame(KEY_SCHEMA) + Frame(p) + Frame(e) + Repeated(inputs) + Repeated(pins)
  }

  lemma FieldsNest(a: string, b: string, c: string, d: string, e: string)
    ensures a + b + c + d + e == a + (b + (c + (d + e)))
  {
  }

  lemma FieldsCancel(
    p: string, e: string, i: seq<Pair>, l: seq<Pair>, p': string, e': string, i': seq<Pair>, l': seq<Pair>)
    requires |p| < WORD && |e| < WORD && |p'| < WORD && |e'| < WORD
    requires ShortPairs(i) && ShortPairs(l) && ShortPairs(i') && ShortPairs(l')
    requires Fields(p, e, i, l) == Fields(p', e', i', l')
    ensures p == p' && e == e' && i == i' && l == l'
  {
    var x, y := Repeated(i) + Repeated(l), Repeated(i') + Repeated(l');
    FieldsNest(Frame(KEY_SCHEMA), Frame(p), Frame(e), Repeated(i), Repeated(l));
    FieldsNest(Frame(KEY_SCHEMA), Frame(p'), Frame(e'), Repeated(i'), Repeated(l'));
    FrameCancels(KEY_SCHEMA, Frame(p) + (Frame(e) + x), KEY_SCHEMA, Frame(p') + (Frame(e') + y));
    FrameCancels(p, Frame(e) + x, p', Frame(e') + y);
    FrameCancels(e, x, e', y);
    RepeatedCancels(i, Repeated(l), i', Repeated(l'));
    assert Repeated(l) + "" == Repeated(l') + "";
    RepeatedCancels(l, "", l', "");
  }
}
