/** What is in the bytes a cache key is taken over, read from the front, and in which order. */
module KeyLayout {
  import opened Orders
  import opened Definition
  import opened Frames
  import opened CacheKey

  // ---- numbers and fields ------------------------------------------------------------------------

  /** A number is written most significant byte first. */
  lemma {:induction false} MostSignificantFirst(s: seq<octet>)
    requires s != []
    ensures Number(s) == s[0] as int * Limit(|s| - 1) + Number(s[1..])
  {
    var n := |s| - 1;
    if n == 0 {
      assert s[..0] == [] && s[1..] == [];
    } else {
      var front, back := s[..n], s[1..];
      MostSignificantFirst(front);
      assert front[1..] == back[..n - 1] && back[n - 1] == s[n];
      var high, low: int := s[0] as int * Limit(n - 1), Number(back[..n - 1]);
      assert Number(s) == (high + low) * 256 + s[n] as int;
      assert high * 256 == s[0] as int * Limit(n) by { ByteUp(s[0] as int, Limit(n - 1)); }
    }
  }

  lemma ByteUp(x: int, y: int)
    ensures x * y * 256 == x * (256 * y)
  {
  }

  /** Eight bytes that say a number, and then the rest. */
  ghost predicate NumberThen(m: string, n: nat, rest: string) {
    exists w: seq<octet> :: |w| == 8 && Number(w) == n && m == w + rest
  }

  /** A field, its length before its bytes, and then the rest. */
  ghost predicate FieldThen(m: string, s: string, rest: string) {
    NumberThen(m, |s|, s + rest)
  }

  /** The two halves of each pair, one after the other, and then the rest. */
  ghost predicate PairsThen(m: string, pairs: seq<Pair>, rest: string)
    decreases |pairs|
  {
    if pairs == [] then m == rest
    else exists x, y :: FieldThen(m, pairs[0].0, x) && FieldThen(x, pairs[0].1, y) && PairsThen(y, pairs[1..], rest)
  }

  lemma WordThen(n: nat, rest: string)
    requires n < WORD
    ensures NumberThen(Word(n) + rest, n, rest)
  {
    WordReads(n);
  }

  lemma FrameThen(s: string, rest: string)
    requires |s| < WORD
    ensures FieldThen(Frame(s) + rest, s, rest)
  {
    WordThen(|s|, s + rest);
    assert Word(|s|) + (s + rest) == Frame(s) + rest;
  }

  lemma {:induction false} WrittenThen(pairs: seq<Pair>, rest: string)
    requires ShortPairs(pairs)
    ensures PairsThen(WritePairs(pairs) + rest, pairs, rest)
  {
    if pairs == [] {
      assert WritePairs(pairs) + rest == rest;
    } else {
      var p, y := pairs[0], WritePairs(pairs[1..]) + rest;
      var x := Frame(p.1) + y;
      WrittenThen(pairs[1..], rest);
      FrameThen(p.1, y);
      FrameThen(p.0, x);
      assert WritePairs(pairs) + rest == Frame(p.0) + x;
    }
  }

  // ---- the order -----------------------------------------------------------------------------------

  /** Lexicographic: a beginning of the other, or smaller where they first differ. */
  ghost predicate Precedes(a: string, b: string) {
    a <= b || exists k :: 0 <= k < |a| && k < |b| && a[..k] == b[..k] && a[k] < b[k]
  }

  lemma {:induction false} StringLeqMeans(a: string, b: string)
    ensures StringLeq(a, b) <==> Precedes(a, b)
  {
    if a != [] && b != [] {
      StringLeqMeans(a[1..], b[1..]);
      assert a == [a[0]] + a[1..] && b == [b[0]] + b[1..];
      if a[0] < b[0] {
        assert a[..0] == b[..0];
      } else if a[0] == b[0] {
        assert a <= b <==> a[1..] <= b[1..];
        if k :| 0 <= k < |a[1..]| && k < |b[1..]| && a[1..][..k] == b[1..][..k] && a[1..][k] < b[1..][k] {
          assert a[..k + 1] == [a[0]] + a[1..][..k] && b[..k + 1] == [b[0]] + b[1..][..k];
          assert a[k + 1] < b[k + 1];
        }
        if k :| 0 <= k < |a| && k < |b| && a[..k] == b[..k] && a[k] < b[k] {
          assert a[1..][..k - 1] == a[..k][1..] && b[1..][..k - 1] == b[..k][1..];
          assert a[1..][k - 1] < b[1..][k - 1];
        }
      } else {
        assert forall k :: 0 < k < |a| && k < |b| ==> a[..k][0] == a[0] && b[..k][0] == b[0];
      }
    }
  }

  ghost predicate PairPrecedes(a: Pair, b: Pair) {
    if a.0 == b.0 then Precedes(a.1, b.1) else Precedes(a.0, b.0)
  }

  lemma SortedPairsAscend(pairs: seq<Pair>, i: nat, j: nat)
    requires i < j < |pairs| && Sorted(pairs, PairLeq)
    ensures PairPrecedes(pairs[i], pairs[j])
  {
    assert PairLeq(pairs[i], pairs[j]);
    StringLeqMeans(pairs[i].0, pairs[j].0);
    StringLeqMeans(pairs[i].1, pairs[j].1);
  }

  // ---- the whole -----------------------------------------------------------------------------------------

  /** The inputs: each digest as algorithm and hex, as often as it was given, in order. */
  ghost predicate AreInputs(q: Request, inputs: seq<Pair>) {
    && |inputs| == |q.inputs| && (forall d: Digest :: multiset(inputs)[(d.algo, d.hex)] == multiset(q.inputs)[d])
    && forall i, j :: 0 <= i < j < |inputs| ==> PairPrecedes(inputs[i], inputs[j])
  }

  /** The pins: each name of the lockfile once, with its own, in order of the names. */
  ghost predicate ArePins(q: Request, pins: seq<Pair>) {
    && |pins| == |q.lockfile|
    && (forall i :: 0 <= i < |pins| ==> pins[i].0 in q.lockfile && q.lockfile[pins[i].0] == pins[i].1)
    && (forall name :: name in q.lockfile ==> exists i :: 0 <= i < |pins| && pins[i].0 == name)
    && forall i, j :: 0 <= i < j < |pins| ==> Precedes(pins[i].0, pins[j].0)
  }

  /** A list behind the number of its pairs, and then the rest. */
  ghost predicate ListThen(m: string, pairs: seq<Pair>, rest: string) {
    exists body :: NumberThen(m, |pairs|, body) && PairsThen(body, pairs, rest)
  }

  /** The schema, the plugin, the environment, the inputs and the pins, and no more. */
  ghost predicate Lays(m: string, q: Request, inputs: seq<Pair>, pins: seq<Pair>) {
    exists a, b, c, d ::
      && FieldThen(m, KEY_SCHEMA, a) && FieldThen(a, q.pluginRef, b) && FieldThen(b, q.env, c)
      && ListThen(c, inputs, d) && ListThen(d, pins, "")
  }

  lemma RepeatedThen(pairs: seq<Pair>, rest: string)
    requires ShortPairs(pairs)
    ensures ListThen(Repeated(pairs) + rest, pairs, rest)
  {
    var body := WritePairs(pairs) + rest;
    WordThen(|pairs|, body);
    WrittenThen(pairs, rest);
    assert Word(|pairs|) + body == Repeated(pairs) + rest;
  }

  lemma FieldsLay(q: Request, inputs: seq<Pair>, pins: seq<Pair>)
    requires |q.pluginRef| < WORD && |q.env| < WORD && ShortPairs(inputs) && ShortPairs(pins)
    ensures Lays(Fields(q.pluginRef, q.env, inputs, pins), q, inputs, pins)
  {
    var d := Repeated(pins);
    var c := Repeated(inputs) + d;
    var b := Frame(q.env) + c;
    var a := Frame(q.pluginRef) + b;
    FieldsNest(Frame(KEY_SCHEMA), Frame(q.pluginRef), Frame(q.env), Repeated(inputs), Repeated(pins));
    FrameThen(KEY_SCHEMA, a);
    FrameThen(q.pluginRef, b);
    FrameThen(q.env, c);
    RepeatedThen(inputs, d);
    assert d + "" == d;
    RepeatedThen(pins, "");
  }

  lemma SortedAreInputs(q: Request)
    ensures AreInputs(q, Sort(DigestPairs(q.inputs), PairLeq))
  {
    var inputs := Sort(DigestPairs(q.inputs), PairLeq);
    PairOrder();
    SortIsSorted(DigestPairs(q.inputs), PairLeq);
    SameMembers(inputs, DigestPairs(q.inputs));
    forall d: Digest ensures multiset(inputs)[(d.algo, d.hex)] == multiset(q.inputs)[d] {
      PairsAreDigests(q.inputs, d);
    }
    forall i, j | 0 <= i < j < |inputs| ensures PairPrecedes(inputs[i], inputs[j]) { SortedPairsAscend(inputs, i, j); }
  }

  lemma LockPairsArePins(q: Request)
    ensures ArePins(q, LockPairs(q.lockfile))
  {
    var names, pins := SortedNames(q.lockfile), LockPairs(q.lockfile);
    NamesAreKeys(names, q.lockfile);
    StringOrder();
    SortIsSorted(Enumerate(q.lockfile.Keys), StringLeq);
    forall i, j | 0 <= i < j < |pins| ensures Precedes(pins[i].0, pins[j].0) {
      assert StringLeq(names[i], names[j]);
      StringLeqMeans(names[i], names[j]);
    }
    forall name | name in q.lockfile ensures exists i :: 0 <= i < |pins| && pins[i].0 == name {
      assert name in names;
      var i :| 0 <= i < |names| && names[i] == name;
      assert pins[i].0 == name;
    }
  }

  /** What is hashed: exactly the parts of the request, each where it belongs. */
  lemma MaterialLays(q: Request)
    requires Short(q)
    ensures exists inputs, pins :: AreInputs(q, inputs) && ArePins(q, pins) && Lays(Material(q), q, inputs, pins)
  {
    var inputs, pins := Sort(DigestPairs(q.inputs), PairLeq), LockPairs(q.lockfile);
    SortedIsShort(DigestPairs(q.inputs));
    SortedAreInputs(q);
    LockPairsArePins(q);
    FieldsLay(q, inputs, pins);
    assert Material(q) == Fields(q.pluginRef, q.env, inputs, pins);
  }
}
