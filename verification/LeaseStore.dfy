/**
 The lease manager as the code writes it: methods over one bucket, with the
 bounded retry of Claim and Offer and the loops of Expire and Unaccepted. Expire,
 Unaccepted and Withdraw run here without interference, which is where the
 promises of the Manager contract hold outright; the writes other planes make
 between a read of Claim or Offer and its compare-and-set are an argument.
 */
module LeaseStore {
  import opened Prelude
  import opened LeaseKeys
  import opened Lease

  datatype LeaseError = BadName(name: KeyError) | BadTTL | AlreadyOffered | KeptChanging | Fenced
  datatype Orphan = Orphan(tenant: seq<byte>, run: seq<byte>, step: seq<byte>, attempt: uint32, fence: nat)
  datatype Waiting = Waiting(
    tenant: seq<byte>, run: seq<byte>, step: seq<byte>, attempt: uint32, fence: nat, offeredAt: int)

  /** A write another plane makes to a claim key. */
  datatype Rival = Rival(key: string, value: Option<ClaimRecord>)

  function Land(b: Bucket, rivals: seq<Rival>): (r: Bucket)
    ensures r.revision == b.revision + |rivals| && r.renewals == b.renewals
  {
    if rivals == [] then b
    else WriteClaim(Land(b, rivals[..|rivals| - 1]), rivals[|rivals| - 1].key, rivals[|rivals| - 1].value)
  }

  /** The bucket once the writes of so many races have landed. */
  function LandAll(b: Bucket, rivals: seq<seq<Rival>>): (r: Bucket)
    ensures r.revision >= b.revision
  {
    if rivals == [] then b else Land(LandAll(b, rivals[..|rivals| - 1]), rivals[|rivals| - 1])
  }

  lemma LandNext(b: Bucket, rivals: seq<seq<Rival>>, i: nat)
    requires i < |rivals|
    ensures LandAll(b, rivals[..i + 1]) == Land(LandAll(b, rivals[..i]), rivals[i])
  {
    assert rivals[..i + 1][..i] == rivals[..i];
  }

  /** The bucket as other planes left it after i races, with this key free for the attempt. */
  ghost predicate FreeAfter(before: Bucket, b: Bucket, key: string, attempt: uint32, rivals: seq<seq<Rival>>, i: nat) {
    i <= |rivals| && b == LandAll(before, rivals[..i]) && Takeable(b, key, attempt)
  }

  /** Writes that leave a key alone. */
  predicate Spares(rivals: seq<Rival>, key: string) {
    forall i :: 0 <= i < |rivals| ==> rivals[i].key != key
  }

  lemma {:induction false} LandElsewhere(b: Bucket, rivals: seq<Rival>, key: string)
    requires BucketOk(b)
    ensures BucketOk(Land(b, rivals))
    ensures var b' := Land(b, rivals);
            || LastRevision(b'.claims, key) > b.revision
            || (&& LastRevision(b'.claims, key) == LastRevision(b.claims, key)
                && Get(b'.claims, key) == Get(b.claims, key))
    ensures Spares(rivals, key) ==> LastRevision(Land(b, rivals).claims, key) == LastRevision(b.claims, key)
  {
    if rivals != [] {
      LandElsewhere(b, rivals[..|rivals| - 1], key);
    }
  }

  predicate Takeable(b: Bucket, key: string, attempt: uint32) {
    Stored(b, key).None? || Stored(b, key).value.record.attempt < attempt
  }

  /** The lease a sweep at this instant takes away. */
  predicate Overdue(b: Bucket, key: string, now: int) {
    Stored(b, key).Some? &&
    var (deadline, accepted) := Deadline(Stored(b, key).value.record, Stored(b, key).value.fence, RenewalOf(b, key));
    accepted && now > deadline
  }

  predicate Unheld(b: Bucket, key: string) {
    Stored(b, key).Some? && !Deadline(Stored(b, key).value.record, Stored(b, key).value.fence, RenewalOf(b, key)).1
  }

  function OrphanOf(h: Holding): (r: Orphan) {
    Orphan(h.record.tenant, h.record.run, h.record.step, h.record.attempt, h.fence)
  }

  function WaitingOf(h: Holding): (r: Waiting) {
    Waiting(h.record.tenant, h.record.run, h.record.step, h.record.attempt, h.fence, h.record.expiresAt - h.record.ttl)
  }

  /** What is reported of a waiting offer is what its call said, and when it was made. */
  lemma WaitingIsTheOffer(call: Call, now: int, fence: nat)
    requires call.CallTake? && BeginCall(call, now).TakeRead?
    ensures WaitingOf(Holding(fence, BeginCall(call, now).record)) ==
            Waiting(call.tenant, call.run, call.step, call.attempt, fence, now)
    ensures OrphanOf(Holding(fence, BeginCall(call, now).record)) ==
            Orphan(call.tenant, call.run, call.step, call.attempt, fence)
  {
  }

  datatype Attempted = Refused | Written(fence: nat) | Lost

  /**
   What Claim and Offer promise. Success wrote this record, at the fence
   returned, over what the other planes had left, which was no lease or one of an
   earlier attempt; a refusal wrote nothing and saw an attempt no earlier than this in
   place; giving up wrote nothing and lost every permitted race to a write of this
   key; and with nobody interfering the answer is the state of the key alone.
   */
  ghost predicate TakeOutcome(before: Bucket, after: Bucket, key: string, record: ClaimRecord,
                              rivals: seq<seq<Rival>>, r: Result<Token, LeaseError>) {
    && (match r
        case Ok(t) =>
          && t == Token(key, after.revision) && after.revision > before.revision
          && Stored(after, key) == Some(Holding(t.fence, record))
          && exists i: nat, b ::
               FreeAfter(before, b, key, record.attempt, rivals, i) && after == WriteClaim(b, key, Some(record))
        case Err(AlreadyOffered) =>
          && !Takeable(after, key, record.attempt)
          && exists i: nat :: i <= |rivals| && after == LandAll(before, rivals[..i])
        case Err(KeptChanging) =>
          && |rivals| >= MAX_OFFER_RACES && after == LandAll(before, rivals[..MAX_OFFER_RACES])
          && forall i :: 0 <= i < MAX_OFFER_RACES ==> !Spares(rivals[i], key)
        case Err(_) => false)
    && (rivals == [] ==> (r.Ok? <==> Takeable(before, key, record.attempt)))
  }

  /** A sweep that has dealt with the keys in `done`. */
  ghost predicate SweptSoFar(b0: Bucket, b: Bucket, done: set<string>, now: int) {
    forall key :: if key in done && Overdue(b0, key, now) then Stored(b, key).None? && RenewalOf(b, key).None?
                  else Stored(b, key) == Stored(b0, key) && RenewalOf(b, key) == RenewalOf(b0, key)
  }

  /** The orphans reported for the keys in `done`, each once. */
  ghost predicate Reported(b0: Bucket, swept: seq<string>, orphans: seq<Orphan>, done: set<string>, now: int) {
    && |swept| == |orphans|
    && (forall i :: 0 <= i < |swept| ==>
          swept[i] in done && Overdue(b0, swept[i], now) && orphans[i] == OrphanOf(Stored(b0, swept[i]).value))
    && (forall i, j :: 0 <= i < j < |swept| ==> swept[i] != swept[j])
    && (forall key :: key in done && Overdue(b0, key, now) ==> key in swept)
  }

  class KV {
    var bucket: Bucket

    constructor ()
      ensures bucket == EMPTY_BUCKET
    {
      bucket := EMPTY_BUCKET;
    }

    ghost predicate Valid()
      reads this
    {
      BucketOk(bucket)
    }

    /** One read and one compare-and-set of Claim or Offer, with `rivals` landing in between. */
    method TryTake(key: string, record: ClaimRecord, rivals: seq<Rival>) returns (r: Attempted)
      requires Valid()
      modifies this
      ensures Valid() && bucket.revision >= old(bucket).revision
      ensures r.Refused? <==> !Takeable(old(bucket), key, record.attempt)
      ensures r.Refused? ==> bucket == old(bucket)
      ensures r.Lost? ==> !Spares(rivals, key) && bucket == Land(old(bucket), rivals)
      ensures r.Written? ==>
        && r.fence == bucket.revision > old(bucket).revision
        && Stored(bucket, key) == Some(Holding(r.fence, record))
        && Takeable(Land(old(bucket), rivals), key, record.attempt)
        && bucket == WriteClaim(Land(old(bucket), rivals), key, Some(record))
    {
      var entry := Get(bucket.claims, key);
      if entry.Some? && entry.value.value.attempt >= record.attempt { return Refused; }
      var at := LastRevision(bucket.claims, key);
      LandElsewhere(bucket, rivals, key);
      bucket := Land(bucket, rivals);
      if (if entry.Some? then MayWriteAt(bucket, key, at) else MayCreate(bucket, key)) {
        bucket := WriteClaim(bucket, key, Some(record));
        return Written(bucket.revision);
      }
      return Lost;
    }

    /**
     Claim and Offer. `rivals[i]` lands between the i-th read and the i-th
     compare-and-set; beyond the list nobody interferes.
     */
    method Take(tenant: seq<byte>, run: seq<byte>, step: seq<byte>, attempt: uint32, ttl: int, offered: bool,
                now: int, rivals: seq<seq<Rival>>) returns (r: Result<Token, LeaseError>)
      requires Valid()
      modifies this
      ensures Valid()
      ensures ClaimKey(tenant, run, step).Err? ==>
              r == Err(BadName(ClaimKey(tenant, run, step).error)) && bucket == old(bucket)
      ensures ClaimKey(tenant, run, step).Ok? && ttl <= 0 ==> r == Err(BadTTL) && bucket == old(bucket)
      ensures ClaimKey(tenant, run, step).Ok? && ttl > 0 ==>
        TakeOutcome(old(bucket), bucket, ClaimKey(tenant, run, step).value,
                    ClaimRecord(tenant, run, step, attempt, ttl, now + ttl, offered), rivals, r)
    {
      var name := ClaimKey(tenant, run, step);
      if name.Err? { return Err(BadName(name.error)); }
      if ttl <= 0 { return Err(BadTTL); }
      r := Race(name.value, ClaimRecord(tenant, run, step, attempt, ttl, now + ttl, offered), rivals);
    }

    /** The bounded retry. */
    method Race(key: string, record: ClaimRecord, rivals: seq<seq<Rival>>) returns (r: Result<Token, LeaseError>)
      requires Valid()
      modifies this
      ensures Valid() && TakeOutcome(old(bucket), bucket, key, record, rivals, r)
    {
      var i := 0;
      while i < MAX_OFFER_RACES
        invariant 0 <= i <= MAX_OFFER_RACES && i <= |rivals|
        invariant Valid() && bucket.revision >= old(bucket).revision
        invariant bucket == LandAll(old(bucket), rivals[..i])
        invariant forall j :: 0 <= j < i ==> !Spares(rivals[j], key)
      {
        ghost var read := bucket;
        var landing := if i < |rivals| then rivals[i] else [];
        var tried := TryTake(key, record, landing);
        if i < |rivals| { LandNext(old(bucket), rivals, i); }
        match tried {
          case Refused => return Err(AlreadyOffered);
          case Written(fence) =>
            ghost var n := if i < |rivals| then i + 1 else i;
            assert FreeAfter(old(bucket), Land(read, landing), key, record.attempt, rivals, n);
            return Ok(Token(key, fence));
          case Lost =>
        }
        i := i + 1;
      }
      return Err(KeptChanging);
    }

    /** The check every token meets. */
    method Validate(t: Token) returns (ok: bool)
      ensures ok <==>
              && t.value != "" && t.fence != 0 && Stored(bucket, t.value).Some?
              && Stored(bucket, t.value).value.fence == t.fence
    {
      if t.value == "" || t.fence == 0 { return false; }
      var e := Get(bucket.claims, t.value);
      return e.Some? && e.value.revision == t.fence;
    }

    /** Renew moves the deadline and leaves every claim, and so every fence, where it is. */
    method Renew(t: Token, now: int) returns (ok: bool)
      requires Valid()
      modifies this
      ensures Valid() && bucket.claims == old(bucket).claims
      ensures ok <==>
              && t.value != "" && t.fence != 0 && Stored(bucket, t.value).Some?
              && Stored(bucket, t.value).value.fence == t.fence
      ensures !ok ==> bucket == old(bucket)
      ensures ok ==> !Unheld(bucket, t.value)
      ensures ok ==> forall key :: key != t.value ==> RenewalOf(bucket, key) == RenewalOf(old(bucket), key)
      ensures ok ==> var h := Stored(bucket, t.value).value;
                     RenewalOf(bucket, t.value) == Some(RenewRecord(t.fence, now + h.record.ttl))
    {
      ok := Validate(t);
      if ok {
        var record := Get(bucket.claims, t.value).value.value;
        bucket := WriteRenewal(bucket, t.value, Some(RenewRecord(t.fence, now + record.ttl)));
      }
    }

    method ExpireOne(key: string, now: int) returns (r: Option<Orphan>)
      requires Valid()
      modifies this
      ensures Valid()
      ensures r.Some? <==> Overdue(old(bucket), key, now)
      ensures r.Some? ==> r.value == OrphanOf(Stored(old(bucket), key).value)
      ensures r.None? ==> bucket == old(bucket)
      ensures r.Some? ==> Stored(bucket, key).None? && RenewalOf(bucket, key).None?
      ensures forall k :: k != key ==>
              Stored(bucket, k) == Stored(old(bucket), k) && RenewalOf(bucket, k) == RenewalOf(old(bucket), k)
      ensures bucket.claims.Keys == old(bucket).claims.Keys
    {
      var e := Get(bucket.claims, key);
      if e.None? { return None; }
      var (deadline, accepted) := Deadline(e.value.value, e.value.revision, RenewalOf(bucket, key));
      if !accepted || !(now > deadline) { return None; }
      bucket := WriteClaim(bucket, key, None);
      bucket := WriteRenewal(bucket, key, None);
      var was := e.value.value;
      return Some(Orphan(was.tenant, was.run, was.step, was.attempt, e.value.revision));
    }

    /**
     One sweep, over the keys in whatever order they are listed: exactly the
     overdue leases are taken away and returned, each once, and every other lease
     and renewal is untouched. An offer nobody accepted is never among them.
     */
    method Expire(now: int) returns (orphans: seq<Orphan>, ghost swept: seq<string>)
      requires Valid()
      modifies this
      ensures Valid()
      ensures Reported(old(bucket), swept, orphans, old(bucket).claims.Keys, now)
      ensures SweptSoFar(old(bucket), bucket, old(bucket).claims.Keys, now)
      ensures forall key :: !Overdue(bucket, key, now)
    {
      orphans, swept := [], [];
      var keys := bucket.claims.Keys;
      ghost var all := keys;
      while keys != {}
        invariant keys <= all && Valid()
        invariant SweptSoFar(old(bucket), bucket, all - keys, now)
        invariant Reported(old(bucket), swept, orphans, all - keys, now)
        decreases |keys|
      {
        var key :| key in keys;
        ghost var before := bucket;
        var orphan := ExpireOne(key, now);
        assert all - (keys - {key}) == (all - keys) + {key};
        SweptNext(old(bucket), before, bucket, all - keys, key, now);
        ReportedNext(old(bucket), swept, orphans, all - keys, key, now);
        if orphan.Some? {
          orphans, swept := orphans + [orphan.value], swept + [key];
        }
        keys := keys - {key};
      }
      assert all - keys == all;
      NothingOverdueLeft(old(bucket), bucket, now);
    }

    /** Exactly the offers nobody has accepted, and nothing is written. */
    method Unaccepted() returns (waiting: seq<Waiting>, ghost at: seq<string>)
      requires Valid()
      ensures forall key :: Unheld(bucket, key) ==> WaitingOf(Stored(bucket, key).value) in waiting
      ensures |at| == |waiting|
      ensures forall i :: 0 <= i < |at| ==>
              Unheld(bucket, at[i]) && waiting[i] == WaitingOf(Stored(bucket, at[i]).value)
      ensures forall i, j :: 0 <= i < j < |at| ==> at[i] != at[j]
      ensures forall key :: Unheld(bucket, key) ==> key in at
    {
      waiting, at := [], [];
      var keys := bucket.claims.Keys;
      while keys != {}
        invariant keys <= bucket.claims.Keys && |at| == |waiting|
        invariant forall i :: 0 <= i < |at| ==>
                  at[i] !in keys && Unheld(bucket, at[i]) && waiting[i] == WaitingOf(Stored(bucket, at[i]).value)
        invariant forall i, j :: 0 <= i < j < |at| ==> at[i] != at[j]
        invariant forall key :: key !in keys && Unheld(bucket, key) ==> key in at
        decreases |keys|
      {
        var key :| key in keys;
        keys := keys - {key};
        var e := Get(bucket.claims, key);
        if e.Some? && e.value.value.offered {
          var (_, accepted) := Deadline(e.value.value, e.value.revision, RenewalOf(bucket, key));
          if !accepted {
            waiting, at := waiting + [WaitingOf(Holding(e.value.revision, e.value.value))], at + [key];
          }
        }
      }
      EachIsReported(bucket, waiting, at);
    }

    /** Withdraw removes exactly an unaccepted offer at its own fence, and nothing else. */
    method Withdraw(t: Token) returns (ok: bool)
      requires Valid()
      modifies this
      ensures Valid()
      ensures ok <==> t.value != "" && t.fence != 0 && Stored(old(bucket), t.value).Some?
                      && Stored(old(bucket), t.value).value.fence == t.fence && Unheld(old(bucket), t.value)
      ensures !ok ==> bucket == old(bucket)
      ensures ok ==> Stored(bucket, t.value).None? && bucket.renewals == old(bucket).renewals
      ensures forall key :: key != t.value ==> Stored(bucket, key) == Stored(old(bucket), key)
    {
      ok := Validate(t);
      if ok {
        var record := Get(bucket.claims, t.value).value.value;
        ok := !Deadline(record, t.fence, RenewalOf(bucket, t.value)).1;
        if ok {
          bucket := WriteClaim(bucket, t.value, None);
        }
      }
    }
  }

  lemma EachIsReported(b: Bucket, waiting: seq<Waiting>, at: seq<string>)
    requires |at| == |waiting| && forall key :: Unheld(b, key) ==> key in at
    requires forall i :: 0 <= i < |at| ==> Unheld(b, at[i]) && waiting[i] == WaitingOf(Stored(b, at[i]).value)
    ensures forall key :: Unheld(b, key) ==> WaitingOf(Stored(b, key).value) in waiting
  {
    forall key | Unheld(b, key) ensures WaitingOf(Stored(b, key).value) in waiting {
      var i :| 0 <= i < |at| && at[i] == key;
      assert waiting[i] in waiting;
    }
  }

  lemma SweptNext(b0: Bucket, b: Bucket, b': Bucket, done: set<string>, key: string, now: int)
    requires SweptSoFar(b0, b, done, now) && key !in done
    requires if Overdue(b, key, now) then Stored(b', key).None? && RenewalOf(b', key).None?
             else Stored(b', key) == Stored(b, key) && RenewalOf(b', key) == RenewalOf(b, key)
    requires forall k :: k != key ==> Stored(b', k) == Stored(b, k) && RenewalOf(b', k) == RenewalOf(b, k)
    ensures SweptSoFar(b0, b', done + {key}, now)
    ensures Overdue(b, key, now) <==> Overdue(b0, key, now)
    ensures Overdue(b, key, now) ==> Stored(b, key) == Stored(b0, key)
  {
  }

  lemma ReportedNext(b0: Bucket, swept: seq<string>, orphans: seq<Orphan>, done: set<string>, key: string, now: int)
    requires Reported(b0, swept, orphans, done, now) && key !in done
    ensures Overdue(b0, key, now) ==>
            Reported(b0, swept + [key], orphans + [OrphanOf(Stored(b0, key).value)], done + {key}, now)
    ensures !Overdue(b0, key, now) ==> Reported(b0, swept, orphans, done + {key}, now)
  {
    assert key in swept + [key];
  }

  lemma NothingOverdueLeft(b0: Bucket, b: Bucket, now: int)
    requires SweptSoFar(b0, b, b0.claims.Keys, now)
    ensures forall key :: !Overdue(b, key, now)
  {
    forall key ensures !Overdue(b, key, now) {
      assert Overdue(b0, key, now) ==> key in b0.claims.Keys;
      assert if key in b0.claims.Keys && Overdue(b0, key, now) then Stored(b, key).None? && RenewalOf(b, key).None?
             else Stored(b, key) == Stored(b0, key) && RenewalOf(b, key) == RenewalOf(b0, key);
    }
  }
}
