/** Properties that relate several handlers, or a handler to the store
    invariant, the lookups and the derived price. */
module Properties {
  import opened Model
  import opened Auth
  import opened Pricing
  import opened Handlers
  import opened Lookups

  // ---------------------------------------------------------------------
  // Referential integrity: the deletes keep it, creation and update do not
  // check it.
  // ---------------------------------------------------------------------

  /** The cascading provider delete leaves no orphaned service. */
  lemma DeleteProviderKeepsIntegrity(db: Store, token: Option<string>, tokenValid: string -> bool, id: nat)
    requires RefIntegrity(db)
    ensures RefIntegrity(DeleteProvider(db, token, tokenValid, id).db)
  {
  }

  /** A category is only deleted once no provider refers to it. */
  lemma DeleteCategoryKeepsIntegrity(db: Store, token: Option<string>, tokenValid: string -> bool, id: nat)
    requires RefIntegrity(db)
    ensures RefIntegrity(DeleteCategory(db, token, tokenValid, id).db)
  {
  }

  /** Nothing refers to a service, so removing one cannot orphan anything. */
  lemma DeleteServiceKeepsIntegrity(db: Store, token: Option<string>, tokenValid: string -> bool, id: nat)
    requires RefIntegrity(db)
    ensures RefIntegrity(DeleteService(db, token, tokenValid, id).db)
  {
  }

  /** Creating a service keeps the invariant exactly when its provider id
      names a live provider; the handler inserts whenever the id fits its
      column, live or not. */
  lemma AddServiceIntegrityIff(db: Store, name: string, providerId: int)
    requires RefIntegrity(db)
    ensures FitsInt64(providerId) ==>
      (RefIntegrity(AddService(db, name, providerId).db) <==> providerId in db.providers)
    ensures !FitsInt64(providerId) ==> RefIntegrity(AddService(db, name, providerId).db)
  {
    var r := AddService(db, name, providerId);
    if FitsInt64(providerId) && providerId !in db.providers {
      assert r.db.services[r.status.id].providerId !in r.db.providers;
    }
  }

  /** Creating a provider keeps the invariant exactly when its category id
      names a live category; the handler inserts whenever the token passes
      and the integers fit their columns, live category or not. */
  lemma AddProviderIntegrityIff(db: Store, token: Option<string>, tokenValid: string -> bool,
                                name: string, experience: int, categoryId: int)
    requires RefIntegrity(db)
    ensures AddProvider(db, token, tokenValid, name, experience, categoryId).status.Created? ==>
      (RefIntegrity(AddProvider(db, token, tokenValid, name, experience, categoryId).db)
       <==> categoryId in db.categories)
    ensures !AddProvider(db, token, tokenValid, name, experience, categoryId).status.Created? ==>
      RefIntegrity(AddProvider(db, token, tokenValid, name, experience, categoryId).db)
  {
    var r := AddProvider(db, token, tokenValid, name, experience, categoryId);
    if r.status.Created? && categoryId !in db.categories {
      assert r.db.providers[r.status.id].categoryId !in r.db.categories;
    }
  }

  /** A successful provider update keeps the invariant exactly when the
      resulting category id names a live category; a refused one keeps it. */
  lemma UpdateProviderIntegrityIff(db: Store, token: Option<string>, tokenValid: string -> bool,
                                   id: nat, patch: ProviderPatch)
    requires RefIntegrity(db)
    ensures var r := UpdateProvider(db, token, tokenValid, id, patch);
      r.status == Ok ==>
        (RefIntegrity(r.db) <==> ApplyPatch(db.providers[id], patch).categoryId in db.categories)
    ensures var r := UpdateProvider(db, token, tokenValid, id, patch);
      r.status != Ok ==> RefIntegrity(r.db)
  {
  }

  /** A concrete dangling reference: right after setup, a service for a
      provider that does not exist is accepted and breaks the invariant. */
  lemma DanglingServiceAccepted()
    ensures RefIntegrity(Setup(EmptyStore))
    ensures AddService(Setup(EmptyStore), "Pintura", 1).status.Created?
    ensures !RefIntegrity(AddService(Setup(EmptyStore), "Pintura", 1).db)
  {
  }

  // ---------------------------------------------------------------------
  // Setup
  // ---------------------------------------------------------------------

  /** Running setup twice is the same as running it once. */
  lemma SetupIdempotent(db: Store)
    ensures Setup(Setup(db)) == Setup(db)
  {
  }

  /** Seeding categories cannot break the invariant. */
  lemma SetupKeepsIntegrity(db: Store)
    requires RefIntegrity(db)
    ensures RefIntegrity(Setup(db))
  {
  }

  // ---------------------------------------------------------------------
  // Creation and deletion undo each other
  // ---------------------------------------------------------------------

  /** Deleting the service just created restores the store, as long as the
      table has not yet reached the largest row id. */
  lemma AddThenDeleteService(db: Store, token: Option<string>, tokenValid: string -> bool,
                             name: string, providerId: int)
    requires CheckToken(token, tokenValid).None?
    requires NextId(db.services) <= MaxInt64
    ensures var a := AddService(db, name, providerId);
      a.status.Created? ==> DeleteService(a.db, token, tokenValid, a.status.id) == Reply(Ok, db)
  {
  }

  /** In a store that keeps the invariant no provider can refer to a fresh
      id, so the category just created can be deleted again, restoring the
      store, as long as the table has not yet reached the largest row id. */
  lemma AddThenDeleteCategory(db: Store, token: Option<string>, tokenValid: string -> bool,
                              name: string)
    requires RefIntegrity(db)
    requires CheckToken(token, tokenValid).None?
    requires NextId(db.categories) <= MaxInt64
    ensures var a := AddCategory(db, name);
      DeleteCategory(a.db, token, tokenValid, a.status.id) == Reply(Ok, db)
  {
  }

  /** In a store that keeps the invariant no service can refer to a fresh
      id, so deleting the provider just created cascades to nothing and
      restores the store, as long as the table has not yet reached the
      largest row id. */
  lemma AddThenDeleteProvider(db: Store, token: Option<string>, tokenValid: string -> bool,
                              name: string, experience: int, categoryId: int)
    requires RefIntegrity(db)
    requires CheckToken(token, tokenValid).None?
    requires NextId(db.providers) <= MaxInt64
    ensures var a := AddProvider(db, token, tokenValid, name, experience, categoryId);
      a.status.Created? ==> DeleteProvider(a.db, token, tokenValid, a.status.id) == Reply(Ok, db)
  {
    var a := AddProvider(db, token, tokenValid, name, experience, categoryId);
    if !a.status.Created? {
      return;
    }
    var d := DeleteProvider(a.db, token, tokenValid, a.status.id);
    assert d.db.providers == db.providers;
    forall sid | sid in db.services
      ensures sid in d.db.services
    {
      assert db.services[sid].providerId in db.providers;
    }
    assert d.db.services == db.services;
  }

  // ---------------------------------------------------------------------
  // The derived price follows the provider
  // ---------------------------------------------------------------------

  /** A successful update of a provider's experience re-prices every service
      it owns, although no service row is written; a refused one changes no
      price. */
  lemma ExperienceUpdateReprices(db: Store, token: Option<string>, tokenValid: string -> bool,
                                 id: nat, patch: ProviderPatch, sid: int)
    requires patch.experience.Some?
    requires sid in db.services && db.services[sid].providerId == id
    ensures var r := UpdateProvider(db, token, tokenValid, id, patch);
      && r.db.services[sid] == db.services[sid]
      && (r.status == Ok ==> ServicePrice(r.db, sid) == Some(PriceCents(patch.experience.value)))
      && (r.status != Ok ==> ServicePrice(r.db, sid) == ServicePrice(db, sid))
  {
  }

  /** The same update leaves the price of every other provider's service
      as it was. */
  lemma UpdateKeepsOtherPrices(db: Store, token: Option<string>, tokenValid: string -> bool,
                               id: nat, patch: ProviderPatch, sid: int)
    requires CheckToken(token, tokenValid).None?
    requires sid in db.services && db.services[sid].providerId != id
    ensures ServicePrice(UpdateProvider(db, token, tokenValid, id, patch).db, sid)
         == ServicePrice(db, sid)
  {
  }

  // ---------------------------------------------------------------------
  // Deletes and the lookups
  // ---------------------------------------------------------------------

  /** The delete guard and the category lookup agree: a known category is
      refused exactly when the lookup by that category finds someone. */
  lemma DeleteCategoryConflictIffListed(db: Store, token: Option<string>, tokenValid: string -> bool, id: nat)
    requires CheckToken(token, tokenValid).None? && id in db.categories
    ensures id <= MaxInt64 ==>
      (DeleteCategory(db, token, tokenValid, id).status == Conflict
       <==> HasRows(ProvidersByCategory(db, id)))
  {
  }

  /** After a provider is deleted no lookup by service name returns it and
      none of its former services has a price any more. */
  lemma DeletedProviderUnreachable(db: Store, token: Option<string>, tokenValid: string -> bool,
                                   id: nat, q: string, sid: int)
    requires CheckToken(token, tokenValid).None? && id in db.providers
    requires sid in db.services && db.services[sid].providerId == id
    ensures var r := DeleteProvider(db, token, tokenValid, id);
      r.status == Ok ==> id !in ProvidersByServiceName(r.db, q) && ServicePrice(r.db, sid).None?
    ensures id <= MaxInt64 ==> DeleteProvider(db, token, tokenValid, id).status == Ok
  {
  }

  /** The pattern `%%` matches every name, so the empty query lists exactly
      the providers that own at least one service. This is a property of the
      `LIKE` lookup only: the route never passes it an empty query, since its
      path segment must hold at least one character. */
  lemma EmptyPatternListsProvidersWithServices(db: Store, pid: int)
    requires pid in db.providers
    ensures pid in ProvidersByServiceName(db, [])
        <==> exists sid :: sid in db.services && db.services[sid].providerId == pid
  {
    if exists sid :: sid in db.services && db.services[sid].providerId == pid {
      var sid :| sid in db.services && db.services[sid].providerId == pid;
      assert OccursAt([], FoldCase(db.services[sid].name), 0);
      assert FoldCase([]) == [];
    }
  }
}
