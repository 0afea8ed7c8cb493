/** The relational store behind the provider/service API, as three immutable
    tables keyed by row id. Row ids are the positive ids SQLite hands out;
    foreign keys are plain integers, and nothing in the store itself forces
    them to resolve (see `RefIntegrity`). */
module Model {

  datatype Option<+T> = None | Some(value: T)

  /** A trade that providers are grouped under (table `categoria`). */
  datatype Category = Category(name: string)

  /** A service provider (table `prestador`); `experience` is in years and
      `categoryId` refers to a row of the category table. */
  datatype Provider = Provider(name: string, experience: int, categoryId: int)

  /** A service rendered (table `servico`). `storedPriceCents` is the persisted
      price column; the price the API exposes is derived from the provider
      instead and never reads it. */
  datatype Service = Service(name: string, storedPriceCents: int, providerId: int)

  datatype Store = Store(
    categories: map<nat, Category>,
    providers: map<nat, Provider>,
    services: map<nat, Service>)

  const EmptyStore: Store := Store(map[], map[], map[])

  /** The range of an SQLite INTEGER column: a value outside it cannot be
      bound into a statement. */
  const MinInt64: int := -0x8000_0000_0000_0000
  const MaxInt64: int := 0x7fff_ffff_ffff_ffff

  predicate FitsInt64(x: int) {
    MinInt64 <= x <= MaxInt64
  }

  /** Column default of the stored price, R$ 50.00. */
  const DefaultStoredPriceCents: int := 5000

  /** Every service points at a live provider and every provider at a live
      category. The store does not enforce this; the handlers may keep or
      break it. */
  predicate RefIntegrity(db: Store) {
    && (forall sid :: sid in db.services ==> db.services[sid].providerId in db.providers)
    && (forall pid :: pid in db.providers ==> db.providers[pid].categoryId in db.categories)
  }

  /** True when the table holds at least one row (the query's `first()`
      returns something). */
  predicate HasRows<T>(table: map<nat, T>) {
    exists k :: k in table
  }

  /** Every finite set of integers that contains `x0` has a greatest element. */
  lemma {:induction false} MaxExists(s: set<int>, x0: int)
    requires x0 in s
    ensures exists m :: m in s && forall k :: k in s ==> k <= m
    decreases s
  {
    if !(forall k :: k in s ==> k <= x0) {
      var y :| y in s && y > x0;
      var rest := s - {x0};
      assert y in rest;
      assert rest < s;
      MaxExists(rest, y);
      var m :| m in rest && forall k :: k in rest ==> k <= m;
      forall k | k in s ensures k <= m {
        if k != x0 {
          assert k in rest;
        }
      }
      assert m in s;
    }
  }

  /** The greatest element of a non-empty set of keys. */
  function MaxOf(s: set<int>): (m: int)
    requires exists k :: k in s
    ensures m in s
    ensures forall k :: k in s ==> k <= m
  {
    var x0 :| x0 in s;
    MaxExists(s, x0);
    var m :| m in s && forall k :: k in s ==> k <= m;
    m
  }

  /** The row id SQLite gives a row inserted without one: 1 in an empty
      table, otherwise one more than the largest id in use. */
  function NextId<T>(table: map<nat, T>): (id: nat)
    ensures 1 <= id
    ensures id !in table
    ensures forall k :: k in table ==> k < id
    ensures !HasRows(table) ==> id == 1
    ensures HasRows(table) ==> id - 1 in table
  {
    if HasRows(table) then MaxOf(table.Keys) + 1 else 1
  }
}
