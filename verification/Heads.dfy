/** The editing head of each pipeline: the stored table, and the in-process double of it. */
module Heads {
  import opened Prelude

  datatype HeadError = TenantRequired | RevisionRequired | HeadMoved

  function Row<K, V>(m: map<K, V>, k: K): (r: Option<V>) {
    if k in m then Some(m[k]) else None
  }

  /** Whether a move is allowed: from is the head, the empty id standing for no head at all. */
  predicate IsAt(head: Option<string>, from: string) {
    if from == "" then head.None? else head == Some(from)
  }

  /** One statement over the heads table, which reports how many rows it wrote. */
  class SQLHeads {
    var rows: map<(string, string), string>

    constructor ()
      ensures rows == map[]
    {
      rows := map[];
    }

    method Head(tenant: string, pipeline: string) returns (r: Result<Option<string>, HeadError>)
      ensures r == if tenant == "" then Err(TenantRequired) else Ok(Row(rows, (tenant, pipeline)))
    {
      if tenant == "" { return Err(TenantRequired); }
      r := Ok(if (tenant, pipeline) in rows then Some(rows[(tenant, pipeline)]) else None);
    }

    /** INSERT … ON CONFLICT DO NOTHING. */
    method Insert(key: (string, string), to: string) returns (affected: nat)
      modifies this
      ensures affected == if key in old(rows) then 0 else 1
      ensures rows == if key in old(rows) then old(rows) else old(rows)[key := to]
    {
      if key in rows { return 0; }
      rows := rows[key := to];
      affected := 1;
    }

    /** UPDATE … WHERE revision_id = from. */
    method Update(key: (string, string), from: string, to: string) returns (affected: nat)
      modifies this
      ensures affected == if Row(old(rows), key) == Some(from) then 1 else 0
      ensures rows == if Row(old(rows), key) == Some(from) then old(rows)[key := to] else old(rows)
    {
      if key !in rows || rows[key] != from { return 0; }
      rows := rows[key := to];
      affected := 1;
    }

    /** A move happens exactly from the revision the caller names, and a refusal writes nothing. */
    method CompareAndSetHead(tenant: string, pipeline: string, from: string, to: string)
      returns (r: Result<(), HeadError>)
      modifies this
      ensures r.Ok? <==> tenant != "" && to != "" && IsAt(Row(old(rows), (tenant, pipeline)), from)
      ensures r.Ok? ==> rows == old(rows)[(tenant, pipeline) := to]
      ensures r.Err? ==> rows == old(rows)
      ensures r == Err(HeadMoved) <==> tenant != "" && to != "" && !IsAt(Row(old(rows), (tenant, pipeline)), from)
    {
      if tenant == "" { return Err(TenantRequired); }
      if to == "" { return Err(RevisionRequired); }
      var affected: nat;
      if from == "" {
        affected := Insert((tenant, pipeline), to);
      } else {
        affected := Update((tenant, pipeline), from, to);
      }
      r := if affected == 0 then Err(HeadMoved) else Ok(());
    }
  }

  function HeadKey(tenant: string, pipeline: string): (r: string) {
    tenant + "/" + pipeline
  }

  /** The in-process double, over one map whose keys carry the tenant. */
  class MemoryHeads {
    var heads: map<string, string>

    ghost predicate Valid()
      reads this
    {
      forall k :: k in heads ==> heads[k] != ""
    }

    constructor ()
      ensures Valid() && heads == map[]
    {
      heads := map[];
    }

    method Head(tenant: string, pipeline: string) returns (r: Option<string>)
      ensures r == Row(heads, HeadKey(tenant, pipeline))
    {
      r := if HeadKey(tenant, pipeline) in heads then Some(heads[HeadKey(tenant, pipeline)]) else None;
    }

    /** The same move the stored table makes, on the map's own keys. */
    method CompareAndSetHead(tenant: string, pipeline: string, from: string, to: string)
      returns (r: Result<(), HeadError>)
      requires Valid()
      modifies this
      ensures Valid()
      ensures r.Ok? <==> to != "" && IsAt(Row(old(heads), HeadKey(tenant, pipeline)), from)
      ensures r.Ok? ==> heads == old(heads)[HeadKey(tenant, pipeline) := to]
      ensures r.Err? ==> heads == old(heads)
    {
      if to == "" { return Err(RevisionRequired); }
      var key := HeadKey(tenant, pipeline);
      var known := key in heads;
      var current := if known then heads[key] else "";
      if (known && current != from) || (!known && from != "") { return Err(HeadMoved); }
      heads := heads[key := to];
      r := Ok(());
    }
  }

  /** One tenant extends the other by a piece of the other's pipeline id. */
  predicate SharesAt(t: string, p: string, u: string, q: string, k: nat) {
    k < |p| && p[k] == '/' && u == HeadKey(t, p[..k]) && q == p[k + 1..]
  }

  lemma SharedAt(t: string, p: string, u: string, q: string, k: nat)
    requires SharesAt(t, p, u, q, k)
    ensures HeadKey(t, p) == HeadKey(u, q)
  {
    assert p == p[..k] + "/" + p[k + 1..];
  }

  /**
   Two pipelines share an in-process head exactly when a slash inside one's id lets
   it be read as the other's.
   */
  lemma SharedKey(t: string, p: string, u: string, q: string)
    requires |t| <= |u|
    ensures HeadKey(t, p) == HeadKey(u, q) <==> (t == u && p == q) || exists k: nat :: SharesAt(t, p, u, q, k)
  {
    var a, b := HeadKey(t, p), HeadKey(u, q);
    forall k: nat | SharesAt(t, p, u, q, k) ensures a == b { SharedAt(t, p, u, q, k); }
    if a == b {
      assert a[..|t|] == t && b[..|u|] == u && a[|t| + 1..] == p && b[|u| + 1..] == q;
      if |t| < |u| {
        var k := |u| - |t| - 1;
        assert a[|u|] == '/' && a[|u|] == p[k];
        assert u == a[..|u|] == HeadKey(t, p[..k]);
        assert q == a[|u| + 1..] == p[k + 1..];
        assert SharesAt(t, p, u, q, k);
      }
    }
  }

  /** Two tenants' pipelines of one id never share a head. */
  lemma OneIdTwoTenants(t: string, u: string, p: string)
    ensures HeadKey(t, p) == HeadKey(u, p) <==> t == u
  {
    if HeadKey(t, p) == HeadKey(u, p) {
      assert |HeadKey(t, p)| == |t| + 1 + |p| && |HeadKey(u, p)| == |u| + 1 + |p|;
      assert HeadKey(t, p)[..|t|] == t && HeadKey(u, p)[..|u|] == u;
    }
  }
}
