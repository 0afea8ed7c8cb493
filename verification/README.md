# Service-provider registry: a Dafny model

The system is a small REST API over three related tables. A **categoria**
is a trade. A **prestador** is a service provider with a name, years of
experience and a category. A **servico** is a service rendered by one
provider. Mutating endpoints sit behind a token given as the `token` query
parameter. The one piece of business logic is the service price. It is
never read from the stored column: every read derives it from the current
experience of the provider who owns the service.

This project models that core as pure functions over an immutable store:

- `Model` holds the three tables as maps from row id (a positive integer)
  to record, with foreign keys kept as plain integers, and the 64-bit range
  of an SQLite INTEGER column. It also holds the
  referential-integrity invariant `RefIntegrity` and the SQLite rule for
  fresh row ids (`NextId`: 1 in an empty table, otherwise the largest id
  plus one).
- `Pricing` has the price tiers in integer cents and the derived price of a
  service read through its provider.
- `Auth` has the fixed operator login and the token guard. Token decoding
  and expiry are an opaque `tokenValid: string -> bool` supplied by the
  caller.
- `Handlers` has setup, create, update and delete for the three tables.
  Setup always answers 200 and returns only the new store. Every other
  handler returns a `Reply`: a `Status` (`Ok`, `Created(id)`, `NotFound`,
  `Conflict`, `Invalid`, `ServerError`, `Forbidden(why)`) together with the
  store after the request. `Invalid` is the 400 of an integer that does not
  fit its column; `ServerError` is the 500 of a route id that does not fit.
- `Lookups` has the two filtered provider lookups. It also has a
  loop-based join, proved equal to the declarative lookup.
- `Properties` relates the operations to the invariant, to each other, to
  the lookups and to the price.

The prices come from `base * 1.20`, `base * 1.40` and `base * 1.65` in
floating point, with base 50.00. In IEEE doubles these products round
exactly to 60.0, 70.0 and 82.5, so cents lose nothing.

Two points about the code that the model keeps:

- The service-name lookup uses SQL `LIKE`, which SQLite compares with ASCII
  letters case-folded, so the model folds ASCII case
  (`Lookups.LikeContains`).
- Creation and update never check that the category or provider id exists
  (app.py:172, 196, 242), although `add_servico`'s docstring speaks of an
  existing provider (app.py:237). `Properties` says exactly when creation
  and update keep the invariant.

## Model

| member | source | states |
|---|---|---|
| Model.NextId | app.py:29-49 | A new row gets an id not in use and larger than every id in use: 1 in an empty table, otherwise the largest id plus one |
| Pricing.PriceCents | app.py:65-75 | The price is the base of 5000 cents times the tier's percentage: 6000 at exactly 2 years, 7000 for 3 to 5, 8250 above 5, 5000 otherwise, so always within [5000, 8250] |
| Pricing.PriceMonotone | app.py:69-75 | More years of experience never give a lower price |
| Pricing.ServicePrice | app.py:59-75 | A service's price exists when its provider exists, lies in [5000, 8250], and equals the tier of that provider's current experience |
| Pricing.PriceDependsOnlyOnProviderExperience | app.py:67 | Two stores that agree on a service's provider id and that provider's experience agree on the service's price, whatever else differs |
| Pricing.StoredPriceIgnored | app.py:53 | Overwriting the stored price column never changes the price shown |
| Auth.Login | app.py:133-142 | A token is issued exactly for the credentials admin/1234 and carries that user; anything else, including a JSON `null` or empty-object body, is refused |
| Auth.CheckToken | app.py:119-127 | A request passes the guard exactly when the token parameter is present, non-empty and valid; absent or empty is reported as missing |
| Handlers.AddCategory | app.py:263-271 | Without any token, adds exactly one category under a fresh id greater than every id in use and changes nothing else |
| Handlers.Setup | app.py:150-158 | An empty category table gets exactly the three seed categories with ids 1, 2, 3; a non-empty one leaves the whole store unchanged |
| Handlers.AddProvider | app.py:163-177 | A refused token gives Forbidden and an integer outside the 64-bit column range gives Invalid, both with the store unchanged; otherwise adds exactly one provider under a fresh id, with no check of the category id, and changes nothing else |
| Handlers.ApplyPatch | app.py:194-196 | Each field present in the request is replaced by its value and each absent field is kept |
| Handlers.UpdateProvider | app.py:185-201 | A refused token gives Forbidden, a route id beyond the 64-bit range ServerError, an unknown id NotFound and a patched integer beyond the range Invalid, all with the store unchanged; otherwise only that provider's fields present in the request change, and every other provider, all services and all categories stay as they were |
| Handlers.DeleteProvider | app.py:203-214 | A refused token gives Forbidden, a route id beyond the 64-bit range ServerError and an unknown id NotFound, all with the store unchanged; otherwise the provider and exactly its services are gone, and every other service, provider and category stays as it was |
| Handlers.AddService | app.py:235-247 | Without any token, a provider id outside the 64-bit range gives Invalid with the store unchanged; otherwise adds exactly one service under a fresh id with the default stored price and the given provider id, unchecked, and changes nothing else |
| Handlers.DeleteService | app.py:249-259 | A refused token gives Forbidden, a route id beyond the 64-bit range ServerError and an unknown id NotFound, all with the store unchanged; otherwise exactly that service is removed |
| Handlers.DeleteCategory | app.py:282-296 | A refused token gives Forbidden, a route id beyond the 64-bit range ServerError, an unknown id NotFound, and a category some provider refers to Conflict, all with the store unchanged; otherwise exactly that category is removed |
| Lookups.ExactOccurrenceMatches | app.py:230 | A name that contains the query verbatim always matches the case-folded pattern |
| Lookups.ContainsSubstring | app.py:230 | The scan answers true exactly when the query occurs in the name at some position |
| Lookups.ProvidersByCategory | app.py:221-225 | Lists exactly the providers whose category id equals the one asked for, with their records unchanged |
| Lookups.ProvidersByServiceName | app.py:227-231 | Lists exactly the providers that own a service whose name matches `%q%`, with their records unchanged |
| Lookups.JoinByServiceName | app.py:230 | Walking the services, matching names and collecting their existing providers yields exactly the lookup's result |
| Properties.DeleteProviderKeepsIntegrity | app.py:207-214 | If every service has a live provider and every provider a live category before a provider delete, the same holds after it |
| Properties.DeleteCategoryKeepsIntegrity | app.py:286-296 | A category delete keeps the referential-integrity invariant |
| Properties.DeleteServiceKeepsIntegrity | app.py:253-259 | A service delete keeps the referential-integrity invariant |
| Properties.AddServiceIntegrityIff | app.py:238-244 | Creating a service with a provider id that fits its column keeps the invariant if and only if the id names a live provider; a refused one keeps it |
| Properties.AddProviderIntegrityIff | app.py:167-174 | A created provider keeps the invariant if and only if its category id names a live category; a refused request keeps it |
| Properties.UpdateProviderIntegrityIff | app.py:189-198 | A successful update keeps the invariant if and only if the resulting category id names a live category; a refused one keeps it |
| Properties.DanglingServiceAccepted | app.py:238-244 | Right after setup, a service for provider 1, which does not exist, is created and breaks the invariant |
| Properties.SetupIdempotent | app.py:152-158 | Running setup twice gives the same store as running it once |
| Properties.SetupKeepsIntegrity | app.py:152-158 | Seeding categories keeps the referential-integrity invariant |
| Properties.AddThenDeleteService | app.py:242-257 | Until the table reaches the largest row id, deleting the service just created restores the original store |
| Properties.AddThenDeleteCategory | app.py:268-294 | With the invariant, and until the table reaches the largest row id, deleting the category just created succeeds and restores the original store |
| Properties.AddThenDeleteProvider | app.py:172-212 | With the invariant, and until the table reaches the largest row id, deleting the provider just created cascades to nothing and restores the original store |
| Properties.ExperienceUpdateReprices | app.py:67 | A successful update of a provider's experience changes the price of each of its services to the new tier, though the service row is untouched; a refused one changes no price |
| Properties.UpdateKeepsOtherPrices | app.py:189-198 | A provider update leaves the price of every other provider's services unchanged |
| Properties.DeleteCategoryConflictIffListed | app.py:224-291 | For a known category with an id in the 64-bit range, the delete is refused with Conflict exactly when the lookup by that category returns someone |
| Properties.DeletedProviderUnreachable | app.py:207-230 | A delete of a known provider with an id in the 64-bit range succeeds, and afterwards no service-name lookup lists it and none of its former services has a price |
| Properties.EmptyPatternListsProvidersWithServices | app.py:230 | The `LIKE` lookup with an empty query, which the route itself never passes, lists exactly the providers that own at least one service |

## Left out

- HTTP routing, JSON bodies, serialisation schemas and status-code
  plumbing are not modelled. Outcomes are the `Status` datatype instead.
- Parsing of untyped JSON is not modelled: the `int(...)` coercions,
  missing keys, and the catch-all that turns any exception into a 400.
  Requests arrive already typed.
- Session, commit and rollback mechanics are not modelled, nor is the
  database file location. Each handler is one atomic step on an immutable
  store.
- Token signing, decoding and the 30-minute expiry are not modelled. They
  use foreign cryptography and the wall clock, so validity is the
  caller-supplied `tokenValid`.
- Auth.Login: returns only the user the token would carry, not a signed
  token with an expiry. A body without `user` or `password` keys is not
  modelled, nor is a missing or non-JSON body, which fails with 400 or 415
  before the credential test.
- The read-only list endpoints (all providers, all categories) are not
  modelled as members. They return whole tables.
- Lookups.ProvidersByServiceName: `%` and `_` inside the query are not
  treated as wildcards. The result is a map, so the SQL row order is not
  modelled. Each provider appears once, as the query returns whole provider
  entities without duplicates.
- Lookups.ProvidersByCategory: the path parameter is a string that SQLite
  compares against an integer column. The model takes the integer id.
- Model.NextId: the case of a largest id of 2^63-1 is not modelled. In that
  case SQLite picks an unused id at random. The round-trip lemmas therefore
  assume the table has not reached that id.
- Every handler assumes the tables already exist. Before the first setup
  request creates them, every other request fails: 400 with nothing stored
  where the failure is caught, 500 at the lookups outside the handlers'
  error handling.
- Integers are unbounded except where they reach a column or a lookup:
  experience, category id and provider id outside the 64-bit range give
  `Invalid`, and a route id beyond it gives `ServerError`. The lookup by
  category and the price read take any integer.
- Floating-point prices are not modelled. Prices are integer cents.
- Process startup in debug mode is not modelled.
