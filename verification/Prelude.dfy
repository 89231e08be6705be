/** Values shared by every component: optional values, results and appending loops. */
module Prelude {

  datatype Option<+T> = None | Some(value: T)

  datatype Result<+T, +E> = Ok(value: T) | Err(error: E)

  /** What each element yields, one after the other: a loop that appends. */
  function Collect<A, B>(f: A -> seq<B>, s: seq<A>): (r: seq<B>) {
    if s == [] then [] else Collect(f, s[..|s| - 1]) + f(s[|s| - 1])
  }

  lemma CollectOneMore<A, B>(f: A -> seq<B>, s: seq<A>, i: nat)
    requires i < |s|
    ensures Collect(f, s[..i + 1]) == Collect(f, s[..i]) + f(s[i])
  {
    assert s[..i + 1][..i] == s[..i];
  }

  lemma CollectSnoc<A, B>(f: A -> seq<B>, s: seq<A>, x: A)
    ensures Collect(f, s + [x]) == Collect(f, s) + f(x)
  {
    assert (s + [x])[..|s|] == s;
  }

  lemma {:induction false} CollectHead<A, B>(f: A -> seq<B>, s: seq<A>)
    requires s != []
    ensures Collect(f, s) == f(s[0]) + Collect(f, s[1..])
  {
    var n := |s| - 1;
    if n == 0 {
      assert s[..0] == [] && s[1..] == [];
    } else {
      CollectHead(f, s[..n]);
      assert s[1..][..n - 1] == s[..n][1..];
    }
  }

  lemma {:induction false} CollectMember<A, B>(f: A -> seq<B>, s: seq<A>, x: B)
    ensures x in Collect(f, s) <==> exists i :: 0 <= i < |s| && x in f(s[i])
  {
    if s != [] {
      var n := |s| - 1;
      CollectMember(f, s[..n], x);
      assert forall i :: 0 <= i < n ==> s[..n][i] == s[i];
    }
  }

  lemma {:induction false} CollectNothing<A, B>(f: A -> seq<B>, s: seq<A>)
    ensures Collect(f, s) == [] <==> forall i :: 0 <= i < |s| ==> f(s[i]) == []
  {
    if s != [] {
      var n := |s| - 1;
      CollectNothing(f, s[..n]);
      assert forall i :: 0 <= i < n ==> s[..n][i] == s[i];
    }
  }

  /** A function that keeps an element or drops it. */
  ghost predicate Filters<A(!new)>(f: A -> seq<A>) {
    forall x :: f(x) == [] || f(x) == [x]
  }

  lemma FilterMember<A(!new)>(f: A -> seq<A>, s: seq<A>, x: A)
    requires Filters(f)
    ensures x in Collect(f, s) <==> x in s && f(x) == [x]
  {
    CollectMember(f, s, x);
    forall i | 0 <= i < |s| ensures x in f(s[i]) <==> s[i] == x && f(x) == [x] {}
  }

  function Count<T>(s: seq<T>, test: T -> bool): (r: nat)
    ensures r <= |s|
  {
    if s == [] then 0 else Count(s[..|s| - 1], test) + (if test(s[|s| - 1]) then 1 else 0)
  }

  lemma {:induction false} CountUpdate<T>(s: seq<T>, i: nat, x: T, test: T -> bool)
    requires i < |s|
    ensures Count(s[i := x], test) == Count(s, test) - (if test(s[i]) then 1 else 0) + (if test(x) then 1 else 0)
  {
    var n := |s| - 1;
    if i < n {
      CountUpdate(s[..n], i, x, test);
      assert s[i := x][..n] == s[..n][i := x];
    } else {
      assert s[i := x][..n] == s[..n];
    }
  }

  lemma CountAppend<T>(s: seq<T>, x: T, test: T -> bool)
    ensures Count(s + [x], test) == Count(s, test) + if test(x) then 1 else 0
  {
    assert (s + [x])[..|s|] == s;
  }

  lemma {:induction false} CountSome<T>(s: seq<T>, i: nat, test: T -> bool)
    requires i < |s| && test(s[i])
    ensures Count(s, test) > 0
  {
    if i < |s| - 1 { CountSome(s[..|s| - 1], i, test); }
  }

  lemma {:induction false} CountNone<T>(s: seq<T>, test: T -> bool)
    requires forall i :: 0 <= i < |s| ==> !test(s[i])
    ensures Count(s, test) == 0
  {
    if s != [] { CountNone(s[..|s| - 1], test); }
  }

  /** What comes before the first separator is the first token, where tokens hold none. */
  lemma CancelToken(a: string, x: string, b: string, y: string, c: char)
    requires c !in a && c !in b && a + [c] + x == b + [c] + y
    ensures a == b && x == y
  {
    var l, r := a + [c] + x, b + [c] + y;
    assert l[|a|] == c && r[|b|] == c;
    assert forall i :: 0 <= i < |a| ==> l[i] in a;
    assert forall i :: 0 <= i < |b| ==> r[i] in b;
    assert a == l[..|a|] && b == r[..|b|];
    assert x == l[|a| + 1..] && y == r[|b| + 1..];
  }
}
