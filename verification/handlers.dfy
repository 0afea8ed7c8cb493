/** The mutating request handlers. Each takes the store and the request's
    parameters and returns an outcome together with the store after the
    request's transaction. Protected handlers consult the token guard first,
    so a refused request leaves the store as it was, whether or not the id it
    names exists. Creation never checks that a foreign key resolves. */
module Handlers {
  import opened Model
  import opened Auth

  /** The outcome of a request: HTTP 200 (`Ok`, or `Created` with the new
      row's id), 404, 400 for a delete blocked by references (`Conflict`),
      400 for a failure caught inside the handler (`Invalid`), 500 for one
      raised before the handler's own error handling (`ServerError`), or 403. */
  datatype Status =
    | Ok
    | Created(id: nat)
    | NotFound
    | Conflict
    | Invalid
    | ServerError
    | Forbidden(why: Denial)

  datatype Reply = Reply(status: Status, db: Store)

  /** The fields a provider update may carry; an absent field is left alone. */
  datatype ProviderPatch = ProviderPatch(
    name: Option<string>,
    experience: Option<int>,
    categoryId: Option<int>)

  /** The categories the setup request seeds an empty table with, under the
      ids SQLite hands out to the first three rows. */
  const SeedCategories: map<nat, Category> :=
    map[1 := Category("Carpintaria"), 2 := Category("Eletricista"), 3 := Category("Encanador")]

  /** Insert a category under a fresh id (unprotected). */
  function AddCategory(db: Store, name: string): (r: Reply)
    ensures r.status.Created?
    ensures r.status.id !in db.categories
    ensures forall k :: k in db.categories ==> k < r.status.id
    ensures r.db == db.(categories := db.categories[r.status.id := Category(name)])
  {
    var id := NextId(db.categories);
    Reply(Created(id), db.(categories := db.categories[id := Category(name)]))
  }

  /** Seed the three default categories, but only into an empty category
      table; otherwise leave everything as it is. The request always answers
      200, so only the store is returned. */
  function Setup(db: Store): (r: Store)
    ensures !HasRows(db.categories) ==> r == db.(categories := SeedCategories)
    ensures HasRows(db.categories) ==> r == db
  {
    if HasRows(db.categories) then db
    else
      var db1 := AddCategory(db, "Carpintaria").db;
      var db2 := AddCategory(db1, "Eletricista").db;
      AddCategory(db2, "Encanador").db
  }

  /** Insert a provider under a fresh id (protected). An integer that does
      not fit the column fails the commit: 400 with nothing stored. */
  function AddProvider(db: Store, token: Option<string>, tokenValid: string -> bool,
                       name: string, experience: int, categoryId: int): (r: Reply)
    ensures CheckToken(token, tokenValid).Some? ==>
      r == Reply(Forbidden(CheckToken(token, tokenValid).value), db)
    ensures CheckToken(token, tokenValid).None? && !(FitsInt64(experience) && FitsInt64(categoryId)) ==>
      r == Reply(Invalid, db)
    ensures CheckToken(token, tokenValid).None? && FitsInt64(experience) && FitsInt64(categoryId) ==>
      && r.status.Created?
      && r.status.id !in db.providers
      && (forall k :: k in db.providers ==> k < r.status.id)
      && r.db == db.(providers := db.providers[r.status.id := Provider(name, experience, categoryId)])
  {
    match CheckToken(token, tokenValid)
    case Some(why) => Reply(Forbidden(why), db)
    case None =>
      if !FitsInt64(experience) || !FitsInt64(categoryId) then Reply(Invalid, db)
      else
        var id := NextId(db.providers);
        Reply(Created(id), db.(providers := db.providers[id := Provider(name, experience, categoryId)]))
  }

  /** Apply the fields present in `patch`, in the order the handler does. */
  function ApplyPatch(p: Provider, patch: ProviderPatch): (q: Provider)
    ensures patch.name.Some? ==> q.name == patch.name.value
    ensures patch.name.None? ==> q.name == p.name
    ensures patch.experience.Some? ==> q.experience == patch.experience.value
    ensures patch.experience.None? ==> q.experience == p.experience
    ensures patch.categoryId.Some? ==> q.categoryId == patch.categoryId.value
    ensures patch.categoryId.None? ==> q.categoryId == p.categoryId
  {
    var p1 := if patch.name.Some? then p.(name := patch.name.value) else p;
    var p2 := if patch.experience.Some? then p1.(experience := patch.experience.value) else p1;
    if patch.categoryId.Some? then p2.(categoryId := patch.categoryId.value) else p2
  }

  /** Every integer the patch carries fits its column. */
  predicate PatchFits(patch: ProviderPatch) {
    && (patch.experience.Some? ==> FitsInt64(patch.experience.value))
    && (patch.categoryId.Some? ==> FitsInt64(patch.categoryId.value))
  }

  /** Partially update provider `id` (protected). A route id beyond the
      column's range fails the lookup itself (500); a patched integer beyond
      it fails the commit (400); neither stores anything. */
  function UpdateProvider(db: Store, token: Option<string>, tokenValid: string -> bool,
                          id: nat, patch: ProviderPatch): (r: Reply)
    ensures CheckToken(token, tokenValid).Some? ==>
      r == Reply(Forbidden(CheckToken(token, tokenValid).value), db)
    ensures CheckToken(token, tokenValid).None? && id > MaxInt64 ==>
      r == Reply(ServerError, db)
    ensures CheckToken(token, tokenValid).None? && id <= MaxInt64 && id !in db.providers ==>
      r == Reply(NotFound, db)
    ensures CheckToken(token, tokenValid).None? && id <= MaxInt64 && id in db.providers
            && !PatchFits(patch) ==>
      r == Reply(Invalid, db)
    ensures CheckToken(token, tokenValid).None? && id <= MaxInt64 && id in db.providers
            && PatchFits(patch) ==>
      && r.status == Ok
      && r.db.categories == db.categories
      && r.db.services == db.services
      && r.db.providers.Keys == db.providers.Keys
      && (forall k :: k in db.providers && k != id ==> r.db.providers[k] == db.providers[k])
      && r.db.providers[id] == ApplyPatch(db.providers[id], patch)
  {
    match CheckToken(token, tokenValid)
    case Some(why) => Reply(Forbidden(why), db)
    case None =>
      if id > MaxInt64 then Reply(ServerError, db)
      else if id !in db.providers then Reply(NotFound, db)
      else if !PatchFits(patch) then Reply(Invalid, db)
      else Reply(Ok, db.(providers := db.providers[id := ApplyPatch(db.providers[id], patch)]))
  }

  /** Delete provider `id` (protected): first every service it owns, then
      the provider itself. */
  function DeleteProvider(db: Store, token: Option<string>, tokenValid: string -> bool,
                          id: nat): (r: Reply)
    ensures CheckToken(token, tokenValid).Some? ==>
      r == Reply(Forbidden(CheckToken(token, tokenValid).value), db)
    ensures CheckToken(token, tokenValid).None? && id > MaxInt64 ==>
      r == Reply(ServerError, db)
    ensures CheckToken(token, tokenValid).None? && id <= MaxInt64 && id !in db.providers ==>
      r == Reply(NotFound, db)
    ensures CheckToken(token, tokenValid).None? && id <= MaxInt64 && id in db.providers ==>
      && r.status == Ok
      && r.db.categories == db.categories
      && r.db.providers == db.providers - {id}
      && (forall sid :: sid in r.db.services ==>
            sid in db.services && r.db.services[sid] == db.services[sid])
      && (forall sid :: sid in r.db.services ==> r.db.services[sid].providerId != id)
      && (forall sid :: sid in db.services && db.services[sid].providerId != id ==>
            sid in r.db.services)
  {
    match CheckToken(token, tokenValid)
    case Some(why) => Reply(Forbidden(why), db)
    case None =>
      if id > MaxInt64 then Reply(ServerError, db)
      else if id !in db.providers then Reply(NotFound, db)
      else
        var kept := map sid | sid in db.services && db.services[sid].providerId != id :: db.services[sid];
        Reply(Ok, Store(db.categories, db.providers - {id}, kept))
  }

  /** Insert a service under a fresh id (unprotected), with the stored price
      column at its default. A provider id that does not fit the column fails
      the commit: 400 with nothing stored. */
  function AddService(db: Store, name: string, providerId: int): (r: Reply)
    ensures !FitsInt64(providerId) ==> r == Reply(Invalid, db)
    ensures FitsInt64(providerId) ==>
      && r.status.Created?
      && r.status.id !in db.services
      && (forall k :: k in db.services ==> k < r.status.id)
      && r.db == db.(services := db.services[r.status.id := Service(name, DefaultStoredPriceCents, providerId)])
  {
    if !FitsInt64(providerId) then Reply(Invalid, db)
    else
      var id := NextId(db.services);
      Reply(Created(id), db.(services := db.services[id := Service(name, DefaultStoredPriceCents, providerId)]))
  }

  /** Delete service `id` alone (protected). */
  function DeleteService(db: Store, token: Option<string>, tokenValid: string -> bool,
                         id: nat): (r: Reply)
    ensures CheckToken(token, tokenValid).Some? ==>
      r == Reply(Forbidden(CheckToken(token, tokenValid).value), db)
    ensures CheckToken(token, tokenValid).None? && id > MaxInt64 ==>
      r == Reply(ServerError, db)
    ensures CheckToken(token, tokenValid).None? && id <= MaxInt64 && id !in db.services ==>
      r == Reply(NotFound, db)
    ensures CheckToken(token, tokenValid).None? && id <= MaxInt64 && id in db.services ==>
      && r.status == Ok
      && r.db.categories == db.categories
      && r.db.providers == db.providers
      && id !in r.db.services
      && (forall k :: k in db.services && k != id ==> k in r.db.services && r.db.services[k] == db.services[k])
      && r.db.services.Keys <= db.services.Keys
  {
    match CheckToken(token, tokenValid)
    case Some(why) => Reply(Forbidden(why), db)
    case None =>
      if id > MaxInt64 then Reply(ServerError, db)
      else if id !in db.services then Reply(NotFound, db)
      else Reply(Ok, db.(services := db.services - {id}))
  }

  /** Some provider still refers to category `cid`. */
  predicate CategoryInUse(db: Store, cid: int) {
    exists pid :: pid in db.providers && db.providers[pid].categoryId == cid
  }

  /** Delete category `id` (protected), refused while any provider refers
      to it. */
  function DeleteCategory(db: Store, token: Option<string>, tokenValid: string -> bool,
                          id: nat): (r: Reply)
    ensures CheckToken(token, tokenValid).Some? ==>
      r == Reply(Forbidden(CheckToken(token, tokenValid).value), db)
    ensures CheckToken(token, tokenValid).None? && id > MaxInt64 ==>
      r == Reply(ServerError, db)
    ensures CheckToken(token, tokenValid).None? && id <= MaxInt64 && id !in db.categories ==>
      r == Reply(NotFound, db)
    ensures CheckToken(token, tokenValid).None? && id <= MaxInt64 && id in db.categories &&
            (exists pid :: pid in db.providers && db.providers[pid].categoryId == id) ==>
      r == Reply(Conflict, db)
    ensures CheckToken(token, tokenValid).None? && id <= MaxInt64 && id in db.categories &&
            (forall pid :: pid in db.providers ==> db.providers[pid].categoryId != id) ==>
      && r.status == Ok
      && r.db.providers == db.providers
      && r.db.services == db.services
      && id !in r.db.categories
      && (forall k :: k in db.categories && k != id ==> k in r.db.categories && r.db.categories[k] == db.categories[k])
      && r.db.categories.Keys <= db.categories.Keys
  {
    match CheckToken(token, tokenValid)
    case Some(why) => Reply(Forbidden(why), db)
    case None =>
      if id > MaxInt64 then Reply(ServerError, db)
      else if id !in db.categories then Reply(NotFound, db)
      else if CategoryInUse(db, id) then Reply(Conflict, db)
      else Reply(Ok, db.(categories := db.categories - {id}))
  }
}
