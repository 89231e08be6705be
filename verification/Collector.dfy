/**
 Collecting blobs nobody needs. The tables share one transaction; the blobs are
 outside it, and are unlinked while it holds the write lock.
 */
module Collector {
  import opened Prelude
  import opened Definition
  import opened CacheCodec

  datatype Ref = Ref(text: string, run: string)
  /** The time of an upload, where it can be read. */
  datatype Upload = Upload(text: string, at: Option<int>)
  /** A stored definition, which this build may not be able to decode. */
  datatype Revision = Readable(definition: Pipeline) | Garbled

  datatype Tables = Tables(
    refs: seq<Ref>, uploads: seq<Upload>, revisions: seq<Revision>,
    entries: map<string, Bytes>, events: map<string, seq<int>>)

  // ---- a digest's text ---------------------------------------------------------------------

  function ColonAt(s: string): (r: int)
    ensures -1 <= r < |s| && (r >= 0 ==> s[r] == ':') && ':' !in s[..if r < 0 then |s| else r]
  {
    if s == [] then -1
    else if s[0] == ':' then 0
    else
      var r := ColonAt(s[1..]);
      assert s == [s[0]] + s[1..];
      if r < 0 then -1 else
        assert s[..r + 1] == [s[0]] + s[1..][..r];
        r + 1
  }

  function ParseDigestText(text: string): (r: Option<Digest>) {
    var k := ColonAt(text);
    if k <= 0 || k == |text| - 1 then None else Some(Digest(text[..k], text[k + 1..]))
  }

  /** Reading a stored text and writing it again changes nothing. */
  lemma ParsedText(text: string)
    requires ParseDigestText(text).Some?
    ensures DigestText(ParseDigestText(text).value) == Some(text)
  {
    var k := ColonAt(text);
    assert text == text[..k] + ":" + text[k + 1..];
  }

  /** A digest is read back from its text exactly when its algorithm holds no colon. */
  lemma TextRoundTrip(d: Digest)
    requires DigestText(d).Some?
    ensures ParseDigestText(DigestText(d).value) == Some(d) <==> ':' !in d.algo
  {
    var text := DigestText(d).value;
    var k := ColonAt(text);
    assert text[|d.algo|] == ':';
    assert text[..|d.algo|] == d.algo && text[|d.algo| + 1..] == d.hex;
    assert forall i :: 0 <= i < (if k < 0 then |text| else k) ==> text[i] in text[..if k < 0 then |text| else k];
    assert 0 <= k <= |d.algo|;
    assert k < |d.algo| ==> text[k] == d.algo[k];
  }

  // ---- which runs have expired --------------------------------------------------------------

  predicate Old(times: seq<int>, cutoff: int) {
    times != [] && forall i :: 0 <= i < |times| ==> times[i] < cutoff
  }

  /** A run with no events has no age, and is never expired. */
  predicate IsExpired(db: Tables, run: string, cutoff: int) {
    (exists i :: 0 <= i < |db.refs| && db.refs[i].run == run) && run in db.events && Old(db.events[run], cutoff)
  }

  method LastEvent(times: seq<int>) returns (last: int)
    requires times != []
    ensures last in times && forall i :: 0 <= i < |times| ==> times[i] <= last
  {
    last := times[0];
    var i := 1;
    while i < |times|
      invariant 1 <= i <= |times| && last in times && forall k :: 0 <= k < i ==> times[k] <= last
    {
      if times[i] > last { last := times[i]; }
      i := i + 1;
    }
  }

  method ExpiredRuns(db: Tables, cutoff: int) returns (expired: set<string>)
    ensures forall run :: run in expired <==> IsExpired(db, run, cutoff)
  {
    expired := {};
    var i := 0;
    while i < |db.refs|
      invariant 0 <= i <= |db.refs|
      invariant forall run :: run in expired <==>
        (exists k :: 0 <= k < i && db.refs[k].run == run) && run in db.events && Old(db.events[run], cutoff)
    {
      var run := db.refs[i].run;
      if run in db.events && db.events[run] != [] {
        var last := LastEvent(db.events[run]);
        if last < cutoff { expired := expired + {run}; }
      }
      i := i + 1;
    }
  }

  // ---- what nothing pins -----------------------------------------------------------------------

  /** A row that names a digest, and whether it keeps it. */
  datatype Claim = Claim(text: string, keeps: bool)

  datatype Marks = Marks(order: seq<string>, kept: map<string, bool>)

  function Mark(m: Marks, c: Claim): (r: Marks) {
    if c.text in m.kept then m.(kept := m.kept[c.text := m.kept[c.text] || c.keeps])
    else Marks(m.order + [c.text], m.kept[c.text := c.keeps])
  }

  const UNMARKED := Marks([], map[])

  function MarkAll(m: Marks, claims: seq<Claim>): (r: Marks) {
    if claims == [] then m else Mark(MarkAll(m, claims[..|claims| - 1]), claims[|claims| - 1])
  }

  /** Seen once, then kept if the row keeps it: the two updates of the loops. */
  lemma MarkInTwo(m: Marks, c: Claim)
    ensures var seen := if c.text in m.kept then m else Marks(m.order + [c.text], m.kept[c.text := false]);
            Mark(m, c) == if c.keeps then seen.(kept := seen.kept[c.text := true]) else seen
  {
    if c.text in m.kept {
      assert m.kept[c.text := m.kept[c.text]] == m.kept;
    } else {
      assert m.kept[c.text := false][c.text := true] == m.kept[c.text := true];
    }
  }

  lemma MarkNext(m: Marks, claims: seq<Claim>, i: nat)
    requires i < |claims|
    ensures MarkAll(m, claims[..i + 1]) == Mark(MarkAll(m, claims[..i]), claims[i])
  {
    assert claims[..i + 1][..i] == claims[..i];
  }

  lemma {:induction false} MarkOnwards(m: Marks, a: seq<Claim>, b: seq<Claim>)
    ensures MarkAll(MarkAll(m, a), b) == MarkAll(m, a + b)
  {
    if b == [] {
      assert a + b == a;
    } else {
      MarkOnwards(m, a, b[..|b| - 1]);
      assert (a + b)[..|a + b| - 1] == a + b[..|b| - 1];
    }
  }

  predicate Named(claims: seq<Claim>, text: string) {
    exists i :: 0 <= i < |claims| && claims[i].text == text
  }

  predicate Kept(claims: seq<Claim>, text: string) {
    exists i :: 0 <= i < |claims| && claims[i] == Claim(text, true)
  }

  lemma {:induction false} MarksMean(claims: seq<Claim>, text: string)
    ensures var m := MarkAll(UNMARKED, claims);
            && (text in m.order <==> Named(claims, text)) && (text in m.kept <==> Named(claims, text))
            && (text in m.kept ==> (m.kept[text] <==> Kept(claims, text)))
            && (forall t :: t in m.order <==> t in m.kept)
  {
    if claims != [] {
      var n := |claims| - 1;
      MarksMean(claims[..n], text);
      assert forall i :: 0 <= i < n ==> claims[..n][i] == claims[i];
    }
  }

  function RefClaims(refs: seq<Ref>, expired: set<string>): (r: seq<Claim>)
    ensures |r| == |refs|
  {
    seq(|refs|, i requires 0 <= i < |refs| => Claim(refs[i].text, refs[i].run !in expired))
  }

  predicate InWindow(u: Upload, cutoff: int) {
    u.at.None? || u.at.value >= cutoff
  }

  function UploadClaims(uploads: seq<Upload>, cutoff: int): (r: seq<Claim>)
    ensures |r| == |uploads|
  {
    seq(|uploads|, i requires 0 <= i < |uploads| => Claim(uploads[i].text, InWindow(uploads[i], cutoff)))
  }

  function Claims(db: Tables, expired: set<string>, cutoff: int): (r: seq<Claim>) {
    RefClaims(db.refs, expired) + UploadClaims(db.uploads, cutoff)
  }

  function FileTexts(f: File): (r: seq<string>) {
    if DigestText(f.digest).Some? then [DigestText(f.digest).value] else []
  }

  function CarriedBy(v: Revision): (r: seq<string>) {
    if v.Garbled? then [] else Collect(FileTexts, v.definition.files)
  }

  /** Some revision carries a file with this digest. */
  predicate Carried(revisions: seq<Revision>, text: string) {
    exists i :: 0 <= i < |revisions| && text in CarriedBy(revisions[i])
  }

  function Drop(kept: map<string, bool>): (r: string -> seq<string>) {
    (text: string) => if text in kept && kept[text] then [] else [text]
  }

  function DropCarried(revisions: seq<Revision>): (r: string -> seq<string>) {
    (text: string) => if Carried(revisions, text) then [] else [text]
  }

  /** What may go, or nothing at all where a revision cannot be read. */
  function Unpinned(db: Tables, expired: set<string>, cutoff: int): (r: Option<seq<string>>) {
    var m := MarkAll(MarkAll(UNMARKED, RefClaims(db.refs, expired)), UploadClaims(db.uploads, cutoff));
    var loose := Collect(Drop(m.kept), m.order);
    if loose == [] then Some([])
    else if Garbled in db.revisions then None
    else Some(Collect(DropCarried(db.revisions), loose))
  }

  /** Nothing keeps this digest: no live run, no recent upload, no revision. */
  ghost predicate Loose(db: Tables, expired: set<string>, cutoff: int, text: string) {
    && (forall i :: 0 <= i < |db.refs| && db.refs[i].text == text ==> db.refs[i].run in expired)
    && (forall i :: 0 <= i < |db.uploads| && db.uploads[i].text == text ==> !InWindow(db.uploads[i], cutoff))
    && !Carried(db.revisions, text)
  }

  ghost predicate Candidate(db: Tables, text: string) {
    || (exists i :: 0 <= i < |db.refs| && db.refs[i].text == text)
    || (exists i :: 0 <= i < |db.uploads| && db.uploads[i].text == text)
  }

  lemma ClaimsMean(db: Tables, expired: set<string>, cutoff: int, text: string)
    ensures var claims := Claims(db, expired, cutoff);
            && (Named(claims, text) <==> Candidate(db, text))
            && (!Kept(claims, text) && !Carried(db.revisions, text) <==> Loose(db, expired, cutoff, text))
  {
    var a, b := RefClaims(db.refs, expired), UploadClaims(db.uploads, cutoff);
    var claims := a + b;
    forall i | 0 <= i < |db.refs| ensures claims[i] == Claim(db.refs[i].text, db.refs[i].run !in expired) {}
    forall i | 0 <= i < |db.uploads|
      ensures claims[|a| + i] == Claim(db.uploads[i].text, InWindow(db.uploads[i], cutoff))
    {
    }
    assert Named(claims, text) ==> Candidate(db, text);
  }

  lemma FiltersTwice(m: Marks, revisions: seq<Revision>, text: string)
    ensures text in Collect(DropCarried(revisions), Collect(Drop(m.kept), m.order)) <==>
            text in m.order && !(text in m.kept && m.kept[text]) && !Carried(revisions, text)
    ensures text in Collect(Drop(m.kept), m.order) <==> text in m.order && !(text in m.kept && m.kept[text])
  {
    FilterMember(Drop(m.kept), m.order, text);
    FilterMember(DropCarried(revisions), Collect(Drop(m.kept), m.order), text);
  }

  lemma UnpinnedMembers(db: Tables, expired: set<string>, cutoff: int, text: string)
    requires Unpinned(db, expired, cutoff).Some?
    ensures var m := MarkAll(UNMARKED, Claims(db, expired, cutoff));
            text in Unpinned(db, expired, cutoff).value <==>
            text in m.order && !(text in m.kept && m.kept[text]) && !Carried(db.revisions, text)
  {
    MarkOnwards(UNMARKED, RefClaims(db.refs, expired), UploadClaims(db.uploads, cutoff));
    FiltersTwice(MarkAll(UNMARKED, Claims(db, expired, cutoff)), db.revisions, text);
  }

  /** Exactly the candidates nothing keeps are collectable. */
  lemma UnpinnedMeans(db: Tables, expired: set<string>, cutoff: int, text: string)
    requires Unpinned(db, expired, cutoff).Some?
    ensures text in Unpinned(db, expired, cutoff).value <==> Candidate(db, text) && Loose(db, expired, cutoff, text)
  {
    UnpinnedMembers(db, expired, cutoff, text);
    MarksMean(Claims(db, expired, cutoff), text);
    ClaimsMean(db, expired, cutoff, text);
  }

  method MarkRefs(refs: seq<Ref>, expired: set<string>) returns (m: Marks)
    ensures m == MarkAll(UNMARKED, RefClaims(refs, expired))
  {
    m := UNMARKED;
    ghost var claims := RefClaims(refs, expired);
    var i := 0;
    while i < |refs|
      invariant 0 <= i <= |refs| && m == MarkAll(UNMARKED, claims[..i])
    {
      MarkNext(UNMARKED, claims, i);
      MarkInTwo(m, claims[i]);
      if refs[i].text !in m.kept {
        m := Marks(m.order + [refs[i].text], m.kept[refs[i].text := false]);
      }
      if refs[i].run !in expired {
        m := m.(kept := m.kept[refs[i].text := true]);
      }
      i := i + 1;
    }
    assert claims[..i] == claims;
  }

  /** The uploads join the candidates, each kept while it is inside the window. */
  method DefinitionCandidates(uploads: seq<Upload>, cutoff: int, before: Marks) returns (m: Marks)
    ensures m == MarkAll(before, UploadClaims(uploads, cutoff))
  {
    m := before;
    ghost var claims := UploadClaims(uploads, cutoff);
    var i := 0;
    while i < |uploads|
      invariant 0 <= i <= |uploads| && m == MarkAll(before, claims[..i])
    {
      MarkNext(before, claims, i);
      MarkInTwo(m, claims[i]);
      if uploads[i].text !in m.kept {
        m := Marks(m.order + [uploads[i].text], m.kept[uploads[i].text := false]);
      }
      if uploads[i].at.None? || !(uploads[i].at.value < cutoff) {
        m := m.(kept := m.kept[uploads[i].text := true]);
      }
      i := i + 1;
    }
    assert claims[..i] == claims;
  }

  method CarriedDigests(revisions: seq<Revision>) returns (r: Option<set<string>>)
    ensures r.None? <==> Garbled in revisions
    ensures r.Some? ==> forall text :: text in r.value <==> Carried(revisions, text)
  {
    var carried: set<string> := {};
    var i := 0;
    while i < |revisions|
      invariant 0 <= i <= |revisions| && Garbled !in revisions[..i]
      invariant forall text :: text in carried <==> exists k :: 0 <= k < i && text in CarriedBy(revisions[k])
    {
      if revisions[i].Garbled? { return None; }
      carried := carried + (set text | text in CarriedBy(revisions[i]));
      i := i + 1;
    }
    r := Some(carried);
  }

  /** slices.DeleteFunc over the collectable digests. */
  method KeepUncarried(loose: seq<string>, revisions: seq<Revision>, carried: set<string>) returns (r: seq<string>)
    requires forall text :: text in carried <==> Carried(revisions, text)
    ensures r == Collect(DropCarried(revisions), loose)
  {
    r := [];
    var i := 0;
    while i < |loose|
      invariant 0 <= i <= |loose| && r == Collect(DropCarried(revisions), loose[..i])
    {
      CollectOneMore(DropCarried(revisions), loose, i);
      if loose[i] !in carried { r := r + [loose[i]]; }
      i := i + 1;
    }
    assert loose[..i] == loose;
  }

  method UnpinnedDigests(db: Tables, expired: set<string>, cutoff: int) returns (r: Option<seq<string>>)
    ensures r == Unpinned(db, expired, cutoff)
  {
    var m := MarkRefs(db.refs, expired);
    m := DefinitionCandidates(db.uploads, cutoff, m);
    var loose := Collect(Drop(m.kept), m.order);
    if loose == [] { return Some([]); }
    var carried := CarriedDigests(db.revisions);
    if carried.None? { return None; }
    var left := KeepUncarried(loose, db.revisions, carried.value);
    r := Some(left);
  }

  // ---- the cache entries that name them --------------------------------------------------------

  predicate Names(entry: Bytes, parse: Bytes -> Option<OutputRef>, doomed: seq<string>) {
    exists text :: text in Collect(TextsOf, ReadableOf(entry, parse)) && text in doomed
  }

  function FreshEntries(
    entries: map<string, Bytes>, parse: Bytes -> Option<OutputRef>, doomed: seq<string>): (r: map<string, Bytes>)
  {
    map key | key in entries && !Names(entries[key], parse, doomed) :: entries[key]
  }

  method NamesDoomed(entry: Bytes, parse: Bytes -> Option<OutputRef>, doomed: seq<string>) returns (stale: bool)
    ensures stale <==> Names(entry, parse, doomed)
  {
    var texts := EntryDigests(entry, parse);
    var i := 0;
    while i < |texts|
      invariant 0 <= i <= |texts| && forall k :: 0 <= k < i ==> texts[k] !in doomed
    {
      if texts[i] in doomed { return true; }
      i := i + 1;
    }
    stale := false;
  }

  method DropCacheEntries(entries: map<string, Bytes>, parse: Bytes -> Option<OutputRef>, doomed: seq<string>)
    returns (fresh': map<string, Bytes>)
    ensures fresh' == FreshEntries(entries, parse, doomed)
  {
    if doomed == [] {
      assert FreshEntries(entries, parse, doomed) == entries;
      return entries;
    }
    var left := entries.Keys;
    var stale: set<string> := {};
    while left != {}
      invariant left <= entries.Keys
      invariant forall key :: key in stale <==> key in entries && key !in left && Names(entries[key], parse, doomed)
      decreases left
    {
      var key :| key in left;
      var named := NamesDoomed(entries[key], parse, doomed);
      if named { stale := stale + {key}; }
      left := left - {key};
    }
    fresh' := entries - stale;
  }

  /** No entry the cache can still read names a digest that was to be removed. */
  lemma NoStaleHit(
    entries: map<string, Bytes>, parse: Bytes -> Option<OutputRef>, doomed: seq<string>, key: string, i: nat)
    requires key in FreshEntries(entries, parse, doomed)
    requires Decoded(entries[key], parse).Ok? && i < |Decoded(entries[key], parse).value|
    ensures var d := Decoded(entries[key], parse).value[i].digest;
            DigestText(d).Some? ==> DigestText(d).value !in doomed
  {
    var outs := Decoded(entries[key], parse).value;
    if DigestText(outs[i].digest).Some? {
      CollectorReadsEveryDigest(entries[key], outs, parse, DigestText(outs[i].digest).value);
    }
  }

  // ---- the sweep ----------------------------------------------------------------------------------

  /** `collected` are the blobs unlinked, `reclaimed` the texts whose blobs are gone, found missing ones among them. */
  datatype Deleted = Deleted(blobs: set<Digest>, reclaimed: seq<string>, collected: seq<Digest>, failed: bool)

  /** Blob by blob, until one will not go. */
  function DeleteAll(blobs: set<Digest>, texts: seq<string>, fails: set<string>): (r: Deleted)
    ensures r.blobs <= blobs
  {
    if texts == [] then Deleted(blobs, [], [], false)
    else
      var d := ParseDigestText(texts[0]);
      if d.None? || (d.value in blobs && texts[0] in fails) then Deleted(blobs, [], [], true)
      else
        var rest := DeleteAll(blobs - {d.value}, texts[1..], fails);
        rest.(
          reclaimed := [texts[0]] + rest.reclaimed,
          collected := (if d.value in blobs then [d.value] else []) + rest.collected)
  }

  /** What has been done, and then the rest. */
  function Before(reclaimed: seq<string>, collected: seq<Digest>, rest: Deleted): (r: Deleted) {
    Deleted(rest.blobs, reclaimed + rest.reclaimed, collected + rest.collected, rest.failed)
  }

  lemma BeforeNext(reclaimed: seq<string>, collected: seq<Digest>, text: string, gone: seq<Digest>, rest: Deleted)
    ensures var longer := Deleted(rest.blobs, [text] + rest.reclaimed, gone + rest.collected, rest.failed);
            Before(reclaimed, collected, longer) ==
            Before(reclaimed + [text], collected + gone, rest)
  {
    assert reclaimed + ([text] + rest.reclaimed) == reclaimed + [text] + rest.reclaimed;
    assert collected + (gone + rest.collected) == collected + gone + rest.collected;
  }

  lemma BeforeNothing(reclaimed: seq<string>, collected: seq<Digest>, blobs: set<Digest>, failed: bool)
    ensures Before(reclaimed, collected, Deleted(blobs, [], [], failed)) == Deleted(blobs, reclaimed, collected, failed)
    ensures Before([], [], Deleted(blobs, reclaimed, collected, failed)) == Deleted(blobs, reclaimed, collected, failed)
  {
    assert reclaimed + [] == reclaimed && collected + [] == collected && [] + reclaimed == reclaimed;
    assert [] + collected == collected;
  }

  method DeleteBlobs(blobs: set<Digest>, texts: seq<string>, fails: set<string>) returns (r: Deleted)
    ensures r == DeleteAll(blobs, texts, fails)
  {
    r := Deleted(blobs, [], [], false);
    ghost var all := DeleteAll(blobs, texts, fails);
    BeforeNothing(all.reclaimed, all.collected, all.blobs, all.failed);
    var i := 0;
    assert texts[0..] == texts;
    while i < |texts|
      invariant 0 <= i <= |texts| && !r.failed
      invariant Before(r.reclaimed, r.collected, DeleteAll(r.blobs, texts[i..], fails)) == all
    {
      assert texts[i..][0] == texts[i] && texts[i..][1..] == texts[i + 1..];
      var d := ParseDigestText(texts[i]);
      if d.None? || (d.value in r.blobs && texts[i] in fails) {
        BeforeNothing(r.reclaimed, r.collected, r.blobs, true);
        r := r.(failed := true);
        return;
      }
      var gone := if d.value in r.blobs then [d.value] else [];
      BeforeNext(r.reclaimed, r.collected, texts[i], gone, DeleteAll(r.blobs - {d.value}, texts[i + 1..], fails));
      r := Deleted(r.blobs - {d.value}, r.reclaimed + [texts[i]], r.collected + gone, false);
      i := i + 1;
    }
    BeforeNothing(r.reclaimed, r.collected, r.blobs, false);
  }

  /** The blobs counted are exactly those that went, each once. */
  lemma {:induction false} CollectedAreGone(blobs: set<Digest>, texts: seq<string>, fails: set<string>)
    ensures var r := DeleteAll(blobs, texts, fails);
            && |r.collected| == |blobs| - |r.blobs|
            && forall d :: d in r.collected <==> d in blobs && d !in r.blobs
  {
    if texts != [] {
      var d := ParseDigestText(texts[0]);
      if d.Some? && !(d.value in blobs && texts[0] in fails) {
        CollectedAreGone(blobs - {d.value}, texts[1..], fails);
        assert d.value !in blobs ==> blobs - {d.value} == blobs;
      }
    }
  }

  /** The texts reclaimed are those before the first that will not go, for want of a digest or of an unlink. */
  lemma {:induction false} DeletesUntil(blobs: set<Digest>, texts: seq<string>, fails: set<string>)
    ensures var r := DeleteAll(blobs, texts, fails);
            && r.reclaimed <= texts && (r.failed <==> r.reclaimed != texts)
            && (r.failed ==>
                  var t := texts[|r.reclaimed|];
                  ParseDigestText(t).None? || (t in fails && ParseDigestText(t).value in r.blobs))
  {
    if texts != [] {
      var d := ParseDigestText(texts[0]);
      assert texts == [texts[0]] + texts[1..];
      if d.Some? { DeletesUntil(blobs - {d.value}, texts[1..], fails); }
    }
  }

  /** Only blobs whose text was given go, and a reclaimed text's blob is gone. */
  lemma {:induction false} DeletedOnly(blobs: set<Digest>, texts: seq<string>, fails: set<string>, d: Digest)
    ensures var r := DeleteAll(blobs, texts, fails);
            && (d in blobs && d !in r.blobs ==> DigestText(d).Some? && DigestText(d).value in r.reclaimed)
            && (forall t :: t in r.reclaimed ==> t in texts)
            && (forall t :: t in r.reclaimed ==> ParseDigestText(t).Some? && ParseDigestText(t).value !in r.blobs)
  {
    if texts != [] {
      var e := ParseDigestText(texts[0]);
      if e.Some? {
        ParsedText(texts[0]);
        DeletedOnly(blobs - {e.value}, texts[1..], fails, d);
      }
    }
  }

  function LiveRefs(expired: set<string>): (r: Ref -> seq<Ref>) {
    (row: Ref) => if row.run in expired then [] else [row]
  }

  function OtherUploads(reclaimed: seq<string>): (r: Upload -> seq<Upload>) {
    (u: Upload) => if u.text in reclaimed then [] else [u]
  }

  /** The tables a committed sweep leaves. */
  function Swept(
    db: Tables, parse: Bytes -> Option<OutputRef>, expired: set<string>, doomed: seq<string>,
    reclaimed: seq<string>): (r: Tables)
  {
    db.(
      refs := Collect(LiveRefs(expired), db.refs),
      entries := FreshEntries(db.entries, parse, doomed),
      uploads := Collect(OtherUploads(reclaimed), db.uploads))
  }

  class GC {
    var db: Tables
    var blobs: set<Digest>

    constructor (tables: Tables, stored: set<Digest>)
      ensures db == tables && blobs == stored
    {
      db, blobs := tables, stored;
    }

    /** A reference is written only beside bytes that are there. */
    method Reference(d: Digest, run: string) returns (ok: bool)
      modifies this
      ensures ok <==> DigestText(d).Some? && run != "" && d in blobs
      ensures blobs == old(blobs)
      ensures db == if ok then old(db).(refs := AddRef(old(db).refs, Ref(DigestText(d).value, run))) else old(db)
    {
      if run == "" || DigestText(d).None? || d !in blobs { return false; }
      var row := Ref(DigestText(d).value, run);
      if row !in db.refs { db := db.(refs := db.refs + [row]); }
      ok := true;
    }

    /**
     One collection, given the expired runs computed before it: `fails` are the
     blobs whose unlink errors, and `commits` whether the commit succeeds. Blobs
     already unlinked do not come back with a rollback. What is freed is what is
     gone; it is credited, once each and up to the first credit that is refused, only
     by a collection that did all it set out to.
     */
    method Collect(
      parse: Bytes -> Option<OutputRef>, expired: set<string>, cutoff: int, fails: set<string>, commits: bool,
      refused: set<Digest>)
      returns (freed: nat, credited: seq<Digest>)
      modifies this
      ensures freed == |old(blobs)| - |blobs|
      ensures forall d :: d in credited ==> d in old(blobs) && d !in blobs
      ensures forall d :: d in credited ==> d !in refused
      ensures refused !! old(blobs) ==> credited == [] || |credited| == freed
      ensures var doomed := Unpinned(old(db), expired, cutoff);
              if doomed.None? then db == old(db) && blobs == old(blobs)
              else
                var gone := DeleteAll(old(blobs), doomed.value, fails);
                && blobs == gone.blobs
                && (credited != [] ==> commits && !gone.failed)
                && (commits && !gone.failed ==>
                      credited <= gone.collected && StopsAt(gone.collected, refused, |credited|))
                && db == if commits then Swept(old(db), parse, expired, doomed.value, gone.reclaimed) else old(db)
    {
      var tx := db;
      var doomed := UnpinnedDigests(tx, expired, cutoff);
      if doomed.None? { return 0, []; }
      tx := tx.(refs := Prelude.Collect(LiveRefs(expired), tx.refs));
      var entries := DropCacheEntries(tx.entries, parse, doomed.value);
      tx := tx.(entries := entries);
      var gone := DeleteBlobs(blobs, doomed.value, fails);
      CollectedAreGone(blobs, doomed.value, fails);
      blobs := gone.blobs;
      freed, credited := |gone.collected|, [];
      tx := tx.(uploads := Prelude.Collect(OtherUploads(gone.reclaimed), tx.uploads));
      if !commits { return; }
      db := tx;
      if gone.failed { return; }
      credited := Credit(gone.collected, refused);
    }
  }

  /** The first refusal is at position n, or there is none and n is the end. */
  predicate StopsAt(digests: seq<Digest>, refused: set<Digest>, n: nat) {
    n == |digests| || (n < |digests| && digests[n] in refused)
  }

  /** The credits after the commit: one that is refused stops the rest. */
  method Credit(digests: seq<Digest>, refused: set<Digest>) returns (credited: seq<Digest>)
    ensures credited <= digests && StopsAt(digests, refused, |credited|)
    ensures forall d :: d in credited ==> d !in refused
  {
    var i := 0;
    while i < |digests| && digests[i] !in refused
      invariant 0 <= i <= |digests| && forall d :: d in digests[..i] ==> d !in refused
    {
      i := i + 1;
    }
    credited := digests[..i];
  }

  /** ON CONFLICT DO NOTHING. */
  function AddRef(refs: seq<Ref>, row: Ref): (r: seq<Ref>)
    ensures forall x :: x in r <==> x in refs || x == row
  {
    if row in refs then refs else refs + [row]
  }
}
