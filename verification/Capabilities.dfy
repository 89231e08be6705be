/**
 Which queues an engine binds: one for every capability set it can serve, named by a
 hash that the plane computes the same way.
 */
module Capabilities {
  import opened Prelude
  import opened Orders
  import opened Scalars

  const MAX_ADVERTISED := 8

  predicate IntLeq(a: int, b: int) { a <= b }

  function Specified(c: int): (r: seq<int>) {
    if c == 0 then [] else [c]
  }

  /** slices.Compact: a run of equal elements becomes one. */
  function Compact(s: seq<int>): (r: seq<int>)
    ensures forall x :: x in r <==> x in s
    ensures s != [] ==> r != [] && r[|r| - 1] == s[|s| - 1]
  {
    if s == [] then []
    else
      var n := |s| - 1;
      var r := Compact(s[..n]);
      assert s == s[..n] + [s[n]];
      if n > 0 && s[n - 1] == s[n] then r else r + [s[n]]
  }

  function Normalise(caps: seq<int>): (r: seq<int>) {
    Compact(Sort(Collect(Specified, caps), IntLeq))
  }

  method NormaliseCaps(caps: seq<int>) returns (out: seq<int>)
    ensures out == Normalise(caps)
  {
    var kept := [];
    var i := 0;
    while i < |caps|
      invariant 0 <= i <= |caps| && kept == Collect(Specified, caps[..i])
    {
      CollectOneMore(Specified, caps, i);
      if caps[i] != 0 { kept := kept + [caps[i]]; }
      i := i + 1;
    }
    assert caps[..i] == caps;
    out := Compact(Sort(kept, IntLeq));
  }

  lemma {:induction false} CompactIncreases(s: seq<int>)
    requires Sorted(s, IntLeq)
    ensures Increasing(Compact(s))
  {
    if s != [] {
      var n := |s| - 1;
      CompactIncreases(s[..n]);
      var r := Compact(s[..n]);
      forall i | 0 <= i < |r| ensures r[i] <= s[n] {
        assert r[i] in s[..n];
      }
      if n > 0 && s[n - 1] != s[n] {
        assert IntLeq(s[n - 1], s[n]) && r[|r| - 1] == s[n - 1];
      }
    }
  }

  /** Exactly the specified members, each once, in order. */
  lemma NormaliseMeans(caps: seq<int>)
    ensures Increasing(Normalise(caps))
    ensures forall c :: c in Normalise(caps) <==> c in caps && c != 0
  {
    var kept := Collect(Specified, caps);
    SortIsSorted(kept, IntLeq);
    CompactIncreases(Sort(kept, IntLeq));
    SameMembers(kept, Sort(kept, IntLeq));
    forall c ensures c in kept <==> c in caps && c != 0 { FilterMember(Specified, caps, c); }
  }

  // ---- the hash -------------------------------------------------------------------------------

  /** %d and a newline. */
  function Line(c: int): (r: string) {
    (if c < 0 then "-" + FormatUint(-c) else FormatUint(c)) + "\n"
  }

  function Render(caps: seq<int>): (r: string) {
    if caps == [] then "" else Line(caps[0]) + Render(caps[1..])
  }

  function CapsHash(caps: seq<int>, sum: string -> string): (r: string) {
    sum(Render(Normalise(caps)))
  }

  lemma NumberCancels(a: int, x: string, b: int, y: string)
    requires Line(a) + x == Line(b) + y
    ensures a == b && x == y
  {
    var s := if a < 0 then "-" + FormatUint(-a) else FormatUint(a);
    var t := if b < 0 then "-" + FormatUint(-b) else FormatUint(b);
    assert '\n' !in s && '\n' !in t;
    assert s + ['\n'] + x == t + ['\n'] + y;
    CancelToken(s, x, t, y, '\n');
    FormatIsNumeral(if a < 0 then -a else a);
    FormatIsNumeral(if b < 0 then -b else b);
    assert a < 0 ==> s[1..] == FormatUint(-a);
    assert b < 0 ==> t[1..] == FormatUint(-b);
    assert IsDigit(FormatUint(if a < 0 then -a else a)[0]) && IsDigit(FormatUint(if b < 0 then -b else b)[0]);
  }

  /** Different lists are hashed from different bytes. */
  lemma {:induction false} RenderIsInjective(a: seq<int>, b: seq<int>)
    requires Render(a) == Render(b)
    ensures a == b
  {
    assert a != [] ==> |Line(a[0])| > 0;
    assert b != [] ==> |Line(b[0])| > 0;
    if a != [] && b != [] {
      NumberCancels(a[0], Render(a[1..]), b[0], Render(b[1..]));
      RenderIsInjective(a[1..], b[1..]);
      assert a == [a[0]] + a[1..] && b == [b[0]] + b[1..];
    }
  }

  // ---- every subset, by its mask --------------------------------------------------------------------

  function Pow2(n: nat): (r: nat)
    ensures r > 0
  {
    if n == 0 then 1 else 2 * Pow2(n - 1)
  }

  /** mask & (1 << i) != 0. */
  predicate Bit(mask: nat, i: nat) {
    if i == 0 then mask % 2 == 1 else Bit(mask / 2, i - 1)
  }

  function Subset(granted: seq<int>, mask: nat, i: nat): (r: seq<int>)
    requires i <= |granted|
  {
    if i == 0 then [] else Subset(granted, mask, i - 1) + (if Bit(mask, i - 1) then [granted[i - 1]] else [])
  }

  lemma {:induction false} SubsetMeans(granted: seq<int>, mask: nat, n: nat)
    requires n <= |granted| && Increasing(granted)
    ensures Increasing(Subset(granted, mask, n))
    ensures forall x :: x in Subset(granted, mask, n) ==> x in granted[..n]
    ensures forall i :: 0 <= i < n ==> (granted[i] in Subset(granted, mask, n) <==> Bit(mask, i))
  {
    if n > 0 {
      SubsetMeans(granted, mask, n - 1);
      var before := Subset(granted, mask, n - 1);
      forall x | x in before ensures x < granted[n - 1] && x in granted[..n] {
        var k :| 0 <= k < n - 1 && granted[..n - 1][k] == x;
        assert granted[..n][k] == x;
      }
      assert forall k :: 0 <= k < |before| ==> before[k] in before;
      assert granted[n - 1] !in before;
      assert granted[..n][n - 1] == granted[n - 1];
    }
  }

  lemma {:induction false} BitsDetermine(a: nat, b: nat, n: nat)
    requires a < Pow2(n) && b < Pow2(n) && forall i: nat :: i < n ==> (Bit(a, i) <==> Bit(b, i))
    ensures a == b
  {
    if n > 0 {
      assert Bit(a, 0) <==> Bit(b, 0);
      forall i: nat | i < n - 1 ensures Bit(a / 2, i) <==> Bit(b / 2, i) {
        assert Bit(a, i + 1) <==> Bit(b, i + 1);
      }
      BitsDetermine(a / 2, b / 2, n - 1);
    }
  }

  /** The mask of the granted members that are wanted. */
  function MaskOf(granted: seq<int>, wanted: seq<int>): (r: nat)
    ensures r < Pow2(|granted|)
  {
    if granted == [] then 0 else (if granted[0] in wanted then 1 else 0) + 2 * MaskOf(granted[1..], wanted)
  }

  lemma {:induction false} MaskBits(granted: seq<int>, wanted: seq<int>, i: nat)
    requires i < |granted|
    ensures Bit(MaskOf(granted, wanted), i) <==> granted[i] in wanted
  {
    var m := MaskOf(granted, wanted);
    assert m / 2 == MaskOf(granted[1..], wanted);
    if i > 0 { MaskBits(granted[1..], wanted, i - 1); }
  }

  function HashOf(granted: seq<int>, mask: nat, sum: string -> string): (r: string) {
    CapsHash(Subset(granted, mask, |granted|), sum)
  }

  method HashOfMask(granted: seq<int>, mask: nat, sum: string -> string) returns (hash: string)
    ensures hash == HashOf(granted, mask, sum)
  {
    var subset := [];
    var i := 0;
    while i < |granted|
      invariant 0 <= i <= |granted| && subset == Subset(granted, mask, i)
    {
      if Bit(mask, i) { subset := subset + [granted[i]]; }
      i := i + 1;
    }
    hash := CapsHash(subset, sum);
  }

  function HashAt(granted: seq<int>, sum: string -> string): (r: nat -> string) {
    (mask: nat) => HashOf(granted, mask, sum)
  }

  /** What a function gives for every number below n. */
  function Below<T>(n: nat, f: nat -> T): (r: seq<T>)
    ensures |r| == n && forall m :: 0 <= m < n ==> r[m] == f(m)
  {
    if n == 0 then [] else Below(n - 1, f) + [f(n - 1)]
  }

  method HashesOf(granted: seq<int>, masks: nat, sum: string -> string) returns (hashes: seq<string>)
    ensures hashes == Below(masks, HashAt(granted, sum))
  {
    hashes := [];
    var mask := 0;
    while mask < masks
      invariant 0 <= mask <= masks && hashes == Below(mask, HashAt(granted, sum))
    {
      var hash := HashOfMask(granted, mask, sum);
      hashes := hashes + [hash];
      mask := mask + 1;
    }
  }

  /** One hash for every mask, or a refusal of more members than the bound. */
  method SatisfiableCapsHashes(caps: seq<int>, sum: string -> string) returns (r: Option<seq<string>>)
    ensures r.None? <==> |Normalise(caps)| > MAX_ADVERTISED
    ensures r.Some? ==> r.value == Below(Pow2(|Normalise(caps)|), HashAt(Normalise(caps), sum))
  {
    var granted := NormaliseCaps(caps);
    if |granted| > MAX_ADVERTISED { return None; }
    var hashes := HashesOf(granted, Pow2(|granted|), sum);
    r := Some(hashes);
  }

  // ---- who is bound to what ---------------------------------------------------------------------------

  /** The truncated hash does not take one of these lists for the other. */
  predicate TellsApart(sum: string -> string, a: seq<int>, b: seq<int>) {
    sum(Render(a)) == sum(Render(b)) ==> Render(a) == Render(b)
  }

  /** Nor a required set for a different set the engine grants; there are at most 256 of those. */
  ghost predicate TellsGranted(sum: string -> string, caps: seq<int>, required: seq<int>) {
    forall mask: nat :: mask < Pow2(|Normalise(caps)|) ==>
      TellsApart(sum, Subset(Normalise(caps), mask, |Normalise(caps)|), Normalise(required))
  }

  lemma NormalIsNormal(s: seq<int>)
    requires Increasing(s) && 0 !in s
    ensures Normalise(s) == s
  {
    NormaliseMeans(s);
    IncreasingIsUnique(Normalise(s), s);
  }

  lemma HashOfSubset(caps: seq<int>, mask: nat, required: seq<int>, sum: string -> string)
    requires TellsApart(sum, Subset(Normalise(caps), mask, |Normalise(caps)|), Normalise(required))
    ensures var granted := Normalise(caps);
            HashOf(granted, mask, sum) == CapsHash(required, sum) <==>
              Subset(granted, mask, |granted|) == Normalise(required)
  {
    var granted := Normalise(caps);
    var subset := Subset(granted, mask, |granted|);
    NormaliseMeans(caps);
    NormaliseMeans(required);
    SubsetMeans(granted, mask, |granted|);
    assert granted[..|granted|] == granted;
    NormalIsNormal(subset);
    if HashOf(granted, mask, sum) == CapsHash(required, sum) {
      assert sum(Render(subset)) == sum(Render(Normalise(required)));
      RenderIsInjective(subset, Normalise(required));
    }
  }

  predicate Serves(caps: seq<int>, required: seq<int>) {
    forall c :: c in Normalise(required) ==> c in Normalise(caps)
  }

  /** Of a required set, exactly one mask gives it if it is granted, and none if it is not. */
  lemma OneMask(caps: seq<int>, required: seq<int>, mask: nat)
    requires mask < Pow2(|Normalise(caps)|)
    ensures var granted := Normalise(caps);
            Subset(granted, mask, |granted|) == Normalise(required) <==>
            Serves(caps, required) && mask == MaskOf(granted, Normalise(required))
  {
    var granted, wanted := Normalise(caps), Normalise(required);
    var n := |granted|;
    var best := MaskOf(granted, wanted);
    NormaliseMeans(caps);
    NormaliseMeans(required);
    SubsetMeans(granted, mask, n);
    assert granted[..n] == granted;
    forall i: nat | i < n ensures Bit(best, i) <==> granted[i] in wanted { MaskBits(granted, wanted, i); }
    if Subset(granted, mask, n) == wanted {
      forall i: nat | i < n ensures Bit(mask, i) <==> Bit(best, i) { assert granted[i] in granted; }
      BitsDetermine(mask, best, n);
    } else if Serves(caps, required) && mask == best {
      forall x ensures x in Subset(granted, mask, n) <==> x in wanted {
        if x in granted { var i :| 0 <= i < n && granted[i] == x; }
      }
      IncreasingIsUnique(Subset(granted, mask, n), wanted);
    }
  }

  lemma BoundAt(caps: seq<int>, required: seq<int>, sum: string -> string, mask: nat)
    requires TellsGranted(sum, caps, required) && mask < Pow2(|Normalise(caps)|)
    ensures HashAt(Normalise(caps), sum)(mask) == CapsHash(required, sum) <==>
            Serves(caps, required) && mask == MaskOf(Normalise(caps), Normalise(required))
  {
    HashOfSubset(caps, mask, required, sum);
    OneMask(caps, required, mask);
  }

  predicate OncePlace(s: seq<string>, x: string) {
    forall i, j :: 0 <= i < j < |s| && s[i] == x ==> s[j] != x
  }

  /** The hashes an engine binds queues for. */
  function Bound(caps: seq<int>, sum: string -> string): (r: seq<string>) {
    Below(Pow2(|Normalise(caps)|), HashAt(Normalise(caps), sum))
  }

  /**
   An engine's hashes hold a required set's hash exactly when the engine grants every
   member of it, and then at exactly one place.
   */
  lemma BindsExactlyWhatItServes(caps: seq<int>, required: seq<int>, sum: string -> string)
    requires TellsGranted(sum, caps, required)
    ensures CapsHash(required, sum) in Bound(caps, sum) <==> Serves(caps, required)
    ensures OncePlace(Bound(caps, sum), CapsHash(required, sum))
  {
    var bound, hash := Bound(caps, sum), CapsHash(required, sum);
    var at := MaskOf(Normalise(caps), Normalise(required));
    forall m: nat | m < |bound| ensures bound[m] == hash <==> Serves(caps, required) && m == at {
      BoundAt(caps, required, sum, m);
    }
    FoundAt(bound, hash, at, Serves(caps, required));
  }

  lemma FoundAt(s: seq<string>, x: string, at: nat, found: bool)
    requires at < |s| && forall m: nat :: m < |s| ==> (s[m] == x <==> found && m == at)
    ensures x in s <==> found
    ensures OncePlace(s, x)
  {
    assert s[at] == x <==> found;
  }

  /** However a set is listed, its hash is the same; different sets have different hashes. */
  lemma HashIsOfTheSet(a: seq<int>, b: seq<int>, sum: string -> string)
    requires TellsApart(sum, Normalise(a), Normalise(b))
    ensures CapsHash(a, sum) == CapsHash(b, sum) <==> forall c :: c != 0 ==> (c in a <==> c in b)
  {
    NormaliseMeans(a);
    NormaliseMeans(b);
    if CapsHash(a, sum) == CapsHash(b, sum) {
      RenderIsInjective(Normalise(a), Normalise(b));
    }
    if forall c :: c != 0 ==> (c in a <==> c in b) {
      IncreasingIsUnique(Normalise(a), Normalise(b));
    }
  }

  // ---- the queues -------------------------------------------------------------------------------------

  datatype WorkQueue = WorkQueue(consumer: string, subject: string)

  function SubjectDispatch(tier: string, hash: string): (r: string) {
    "job.dispatch." + tier + "." + hash
  }

  function SubjectDispatchKind(tier: string, hash: string, kind: string): (r: string) {
    SubjectDispatch(tier, hash) + "." + kind
  }

  /** A set's own queue and, for an engine with a kind, the queue of that kind. */
  function QueuesFor(tier: string, kind: string): (r: string -> seq<WorkQueue>) {
    (hash: string) =>
      var any := WorkQueue("engines-" + tier + "-" + hash, SubjectDispatch(tier, hash));
      if kind == "" then [any]
      else [any, WorkQueue("engines-" + tier + "-" + hash + "-" + kind, SubjectDispatchKind(tier, hash, kind))]
  }

  method WorkQueues(tier: string, kind: string, hashes: seq<string>) returns (queues: seq<WorkQueue>)
    ensures queues == Collect(QueuesFor(tier, kind), hashes)
  {
    queues := [];
    var i := 0;
    while i < |hashes|
      invariant 0 <= i <= |hashes| && queues == Collect(QueuesFor(tier, kind), hashes[..i])
    {
      CollectOneMore(QueuesFor(tier, kind), hashes, i);
      var hash := hashes[i];
      var more := [WorkQueue("engines-" + tier + "-" + hash, SubjectDispatch(tier, hash))];
      if kind != "" {
        more := more + [WorkQueue("engines-" + tier + "-" + hash + "-" + kind, SubjectDispatchKind(tier, hash, kind))];
      }
      queues := queues + more;
      i := i + 1;
    }
    assert hashes[..i] == hashes;
  }

  /** Where the plane publishes a dispatch: by kind, where the step names one. */
  function Route(tier: string, hash: string, kind: string): (r: string) {
    if kind == "" then SubjectDispatch(tier, hash) else SubjectDispatchKind(tier, hash, kind)
  }

  predicate Token(s: string) { '.' !in s }

  lemma RouteIsExact(t: string, h: string, k: string, t': string, h': string, k': string)
    requires Token(t) && Token(h) && Token(k) && Token(t') && Token(h') && Token(k')
    ensures Route(t, h, k) == Route(t', h', k') <==> t == t' && h == h' && k == k'
  {
    var rest := if k == "" then h else h + "." + k;
    var rest' := if k' == "" then h' else h' + "." + k';
    assert Route(t, h, k) == "job.dispatch." + (t + "." + rest);
    assert Route(t', h', k') == "job.dispatch." + (t' + "." + rest');
    if Route(t, h, k) == Route(t', h', k') {
      var front := "job.dispatch.";
      assert t + "." + rest == (front + (t + "." + rest))[|front|..] == t' + "." + rest';
      CancelToken(t, rest, t', rest', '.');
      TokenEnds(h, k, h', k');
    }
  }

  lemma TokenEnds(h: string, k: string, h': string, k': string)
    requires Token(h) && Token(h') && (if k == "" then h else h + "." + k) == (if k' == "" then h' else h' + "." + k')
    ensures h == h' && k == k'
  {
    assert k != "" ==> (h + "." + k)[|h|] == '.';
    assert k' != "" ==> (h' + "." + k')[|h'|] == '.';
    if k != "" && k' != "" { CancelToken(h, k, h', k', '.'); }
  }

  predicate Pulls(queues: seq<WorkQueue>, subject: string) {
    exists q :: q in queues && q.subject == subject
  }

  /**
   A dispatch reaches an engine exactly when they share a tier, the engine grants every
   capability the step requires, and the step names no kind or the engine's own.
   */
  lemma DispatchReaches(
    caps: seq<int>, required: seq<int>, sum: string -> string, tier: string, kind: string, tier': string,
    wanted: string)
    requires TellsGranted(sum, caps, required) && forall x :: Token(sum(x))
    requires Token(tier) && Token(kind) && Token(tier') && Token(wanted)
    ensures Pulls(Collect(QueuesFor(tier, kind), Bound(caps, sum)), Route(tier', CapsHash(required, sum), wanted)) <==>
            tier == tier' && Serves(caps, required) && (wanted == "" || wanted == kind)
  {
    var hash, bound := CapsHash(required, sum), Bound(caps, sum);
    BindsExactlyWhatItServes(caps, required, sum);
    BoundAreTokens(caps, sum);
    PullsOf(tier, kind, bound, tier', hash, wanted);
  }

  lemma BoundAreTokens(caps: seq<int>, sum: string -> string)
    requires forall x :: Token(sum(x))
    ensures forall i :: 0 <= i < |Bound(caps, sum)| ==> Token(Bound(caps, sum)[i])
  {
    forall i | 0 <= i < |Bound(caps, sum)| ensures Token(Bound(caps, sum)[i]) {
      assert Bound(caps, sum)[i] == HashAt(Normalise(caps), sum)(i);
    }
  }

  lemma PullsOf(tier: string, kind: string, hashes: seq<string>, tier': string, hash: string, wanted: string)
    requires Token(tier) && Token(kind) && Token(tier') && Token(hash) && Token(wanted)
    requires forall i :: 0 <= i < |hashes| ==> Token(hashes[i])
    ensures Pulls(Collect(QueuesFor(tier, kind), hashes), Route(tier', hash, wanted)) <==>
            tier == tier' && hash in hashes && (wanted == "" || wanted == kind)
  {
    var queues := Collect(QueuesFor(tier, kind), hashes);
    var subject := Route(tier', hash, wanted);
    forall i | 0 <= i < |hashes|
      ensures Pulls(QueuesFor(tier, kind)(hashes[i]), subject) <==>
              tier == tier' && hash == hashes[i] && (wanted == "" || wanted == kind)
    {
      RouteIsExact(tier, hashes[i], "", tier', hash, wanted);
      RouteIsExact(tier, hashes[i], kind, tier', hash, wanted);
      OneHashPulls(tier, kind, hashes[i], subject);
    }
    forall q ensures q in queues <==> exists i :: 0 <= i < |hashes| && q in QueuesFor(tier, kind)(hashes[i]) {
      CollectMember(QueuesFor(tier, kind), hashes, q);
    }
    if hash in hashes {
      var i :| 0 <= i < |hashes| && hashes[i] == hash;
      if Pulls(QueuesFor(tier, kind)(hashes[i]), subject) {
        var q :| q in QueuesFor(tier, kind)(hashes[i]) && q.subject == subject;
        assert q in queues;
      }
    }
  }

  lemma OneHashPulls(tier: string, kind: string, hash: string, subject: string)
    ensures Pulls(QueuesFor(tier, kind)(hash), subject) <==>
            subject == Route(tier, hash, "") || subject == Route(tier, hash, kind)
  {
    var queues := QueuesFor(tier, kind)(hash);
    assert queues[0].subject == Route(tier, hash, "") && queues[0] in queues;
    assert queues[|queues| - 1].subject == Route(tier, hash, kind) && queues[|queues| - 1] in queues;
  }
}
