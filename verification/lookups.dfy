/** The two filtered provider lookups. A lookup result is the matching part
    of the provider table, keyed by provider id. */
module Lookups {
  import opened Model

  /** `q` occurs in `s` starting at position `i`. */
  predicate OccursAt(q: string, s: string, i: int) {
    0 <= i && i + |q| <= |s| && s[i..i + |q|] == q
  }

  /** `q` occurs somewhere in `s`. */
  predicate IsSubstring(q: string, s: string) {
    exists i :: 0 <= i <= |s| - |q| && OccursAt(q, s, i)
  }

  /** SQLite's default `LIKE` folds ASCII letters only. */
  function LowerAscii(c: char): (d: char)
    ensures 'A' <= c <= 'Z' ==> 'a' <= d <= 'z' && d as int - c as int == 32
    ensures !('A' <= c <= 'Z') ==> d == c
  {
    if 'A' <= c <= 'Z' then (c as int + 32) as char else c
  }

  function FoldCase(s: string): (f: string)
    ensures |f| == |s|
    ensures forall i :: 0 <= i < |s| ==> f[i] == LowerAscii(s[i])
  {
    seq(|s|, i requires 0 <= i < |s| => LowerAscii(s[i]))
  }

  /** `name LIKE '%q%'`, with no wildcard characters inside `q`: `q` occurs
      in `name` once ASCII letters are folded to lower case on both sides. */
  predicate LikeContains(q: string, name: string) {
    IsSubstring(FoldCase(q), FoldCase(name))
  }

  /** An exact occurrence is always a match; the pattern is looser only in
      letter case. */
  lemma {:induction false} ExactOccurrenceMatches(q: string, name: string)
    requires IsSubstring(q, name)
    ensures LikeContains(q, name)
  {
    var i :| 0 <= i <= |name| - |q| && OccursAt(q, name, i);
    var fn := FoldCase(name);
    var fq := FoldCase(q);
    forall j | 0 <= j < |q|
      ensures fn[i..i + |q|][j] == fq[j]
    {
      assert name[i..i + |q|][j] == q[j];
    }
    assert fn[i..i + |q|] == fq;
    assert OccursAt(fq, fn, i);
  }

  /** Scan `s` left to right for an occurrence of `q`. */
  method ContainsSubstring(s: string, q: string) returns (found: bool)
    ensures found <==> IsSubstring(q, s)
  {
    if |q| > |s| {
      return false;
    }
    var i := 0;
    while i <= |s| - |q|
      invariant 0 <= i <= |s| - |q| + 1
      invariant forall j :: 0 <= j < i ==> !OccursAt(q, s, j)
    {
      if s[i..i + |q|] == q {
        assert OccursAt(q, s, i);
        return true;
      }
      i := i + 1;
    }
    found := false;
  }

  /** The providers filed under category `cid`. */
  function ProvidersByCategory(db: Store, cid: int): (r: map<nat, Provider>)
    ensures forall pid :: pid in r ==> pid in db.providers && r[pid] == db.providers[pid]
    ensures forall pid :: pid in db.providers ==> (pid in r <==> db.providers[pid].categoryId == cid)
  {
    map pid | pid in db.providers && db.providers[pid].categoryId == cid :: db.providers[pid]
  }

  /** Provider `pid` owns a service whose name matches `%q%`. */
  predicate OffersMatching(db: Store, pid: int, q: string) {
    exists sid :: sid in db.services && db.services[sid].providerId == pid
                  && LikeContains(q, db.services[sid].name)
  }

  /** The providers joined with a service whose name matches `%q%`. */
  function ProvidersByServiceName(db: Store, q: string): (r: map<nat, Provider>)
    ensures forall pid :: pid in r ==> pid in db.providers && r[pid] == db.providers[pid]
    ensures forall pid :: pid in db.providers ==> (pid in r <==> OffersMatching(db, pid, q))
  {
    map pid | pid in db.providers && OffersMatching(db, pid, q) :: db.providers[pid]
  }

  /** Compute the same lookup as the join does: walk the service table,
      keep the rows whose name matches, and collect each one's provider if
      that provider exists. */
  method JoinByServiceName(db: Store, q: string) returns (r: map<nat, Provider>)
    ensures r == ProvidersByServiceName(db, q)
  {
    var todo := db.services.Keys;
    r := map[];
    while exists sid :: sid in todo
      invariant todo <= db.services.Keys
      invariant forall pid :: pid in r ==> pid in db.providers && r[pid] == db.providers[pid]
      invariant forall pid :: pid in r ==>
        exists sid :: sid in db.services && db.services[sid].providerId == pid
                      && LikeContains(q, db.services[sid].name)
      invariant forall sid ::
        (sid in db.services && sid !in todo && db.services[sid].providerId in db.providers
         && LikeContains(q, db.services[sid].name)) ==> db.services[sid].providerId in r
      decreases todo
    {
      var sid :| sid in todo;
      var svc := db.services[sid];
      var hit := ContainsSubstring(FoldCase(svc.name), FoldCase(q));
      if hit && svc.providerId in db.providers {
        r := r[svc.providerId := db.providers[svc.providerId]];
      }
      todo := todo - {sid};
    }
    var spec := ProvidersByServiceName(db, q);
    assert forall pid :: pid in r <==> pid in spec;
  }
}
