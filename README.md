# Favorites store of gallery-viewer

This project models the backend favorites controller of the gallery-viewer
image-search application. Every user document holds one ordered list of
favorite records `{imageId, url, description, photographer}`. Two request
handlers work on that list. Both belong to the router mounted at
`/api/favorites` (backend/server.jsx:20), whose file is not part of this
model; the removal takes the image id from an `imageId` path parameter.

- `addFavorite` loads the authenticated user. It answers
  400 "Image already in favorites" when some entry already has the requested
  `imageId`. Otherwise it pushes the new record onto the end of the list in
  place, saves the document, and answers with the updated list.
- `removeFavorite` loads the user, replaces the
  list with the entries whose `imageId` differs, saves, and answers with the
  updated list. Removing an absent id is not an error.

If the lookup or the write fails, both handlers end in their catch branch and
answer 500 "Server Error". This includes an unknown user id, because
`user.favorites` is then read off `null`.

Layout:

- `favorites.dfy`, module `Favorites`: the pure part. It holds the
  `Favorite` record, the membership test (`Contains`, the source's `some`),
  the filter (`Without`, the source's `filter`) and the no-duplicates
  invariant `UniqueIds`. `IsRemoval` is an independent order-preserving
  description of a removal. The lemmas relate these definitions.
- `store.dfy`, module `FavoritesStore`:
  - a `User` class whose `favorites` field the two operations update in place;
  - a `UserStore` class holding the persisted documents as a map from user id
    to list;
  - the two handlers, which return the three-way `Response` datatype;
  - a small client, `AddTwiceThenRemoveTwice`. Its assertions follow from the
    handlers' contracts alone.

The database is abstract. `FindById` builds a fresh `User` object from the
stored document and records that document's id in the object. `Save`
writes the object's list back to the document it was loaded from. Whether the read and
the write succeed are parameters (`readOk`, `writeOk`). The authenticated
user id is an input.

## Model

| member | source | states |
|---|---|---|
| `Favorites.Contains` | backend/controllers/favorites.jsx:9 | the duplicate test holds exactly when some entry of the list has the given `imageId` |
| `Favorites.Without` | backend/controllers/favorites.jsx:26-28 | after removal, no entry has the removed id, and the number of entries dropped is the number that had the id |
| `Favorites.WithoutMembers` | backend/controllers/favorites.jsx:26-28 | an entry is in the result exactly when it was in the list and has another id |
| `Favorites.WithoutAbsent` | backend/controllers/favorites.jsx:26-30 | removing an id that is not in the list leaves the list unchanged (no error path) |
| `Favorites.WithoutIdempotent` | backend/controllers/favorites.jsx:26-28 | removing the same id twice gives the same list as removing it once |
| `Favorites.WithoutAppend` | backend/controllers/favorites.jsx:26-28 | the filter distributes over concatenation of lists |
| `Favorites.WithoutIsSubsequence` | backend/controllers/favorites.jsx:26-28 | the entries that survive a removal keep their original relative order |
| `Favorites.WithoutIsRemoval` | backend/controllers/favorites.jsx:26-28 | the filter meets the independent description of a removal: order-preserving, no entry with the id, every other entry kept |
| `Favorites.RemovalIsUnique` | backend/controllers/favorites.jsx:26-28 | any list meeting that description equals the filter's result, so nothing other than the matching entries changes |
| `Favorites.WithoutPreservesUnique` | backend/controllers/favorites.jsx:26-28 | removal keeps the invariant that no two favorites share an `imageId` |
| `Favorites.AppendPreservesUnique` | backend/controllers/favorites.jsx:9-13 | appending a record whose `imageId` is absent keeps the no-duplicates invariant |
| `Favorites.AddThenRemove` | backend/controllers/favorites.jsx:13-28 | adding a fresh `imageId` and then removing it gives back the original list |
| `FavoritesStore.User.AddFavorite` | backend/controllers/favorites.jsx:9-13 | id already present: answers Duplicate and the list is unchanged; otherwise appends exactly the one record at the end, answers Ok with the whole new list, and keeps the no-duplicates invariant |
| `FavoritesStore.User.RemoveFavorite` | backend/controllers/favorites.jsx:26-28 | the field becomes the filtered list, the answer is Ok with that list, and the no-duplicates invariant is kept |
| `FavoritesStore.UserStore.FindById` | backend/controllers/favorites.jsx:7 | yields a fresh user object carrying the requested id and holding the stored list exactly when the read succeeds and the id is stored, and null otherwise |
| `FavoritesStore.UserStore.Save` | backend/controllers/favorites.jsx:14 | if the write succeeds, only the document the object was loaded from changes, to the object's list; otherwise no document changes |
| `FavoritesStore.HandleAddFavorite` | backend/controllers/favorites.jsx:4-21 | failed lookup: ServerError, no document modified. Duplicate id: Duplicate, nothing modified. Otherwise with a good write: Ok with the old list plus the new record at the end, and only that user's document changes. Failed write: ServerError, nothing modified. Every path keeps the store-wide no-duplicates invariant |
| `FavoritesStore.HandleRemoveFavorite` | backend/controllers/favorites.jsx:23-35 | failed lookup: ServerError, no document modified. Otherwise with a good write: Ok with the filtered list, and only that user's document changes. Failed write: ServerError, nothing modified. Every path keeps the store-wide no-duplicates invariant |

## Left out

- The Mongoose model, `findById` and `save`: replaced by an in-memory map of documents. Read and write failures are opaque boolean outcomes. A thrown lookup and a `null` lookup both lead to the same 500 answer, so the model does not tell them apart.
- `console.log` of the error message, and the HTTP encoding beyond the three answers (status codes, the JSON body `{msg}` and the "Server Error" text).
- Request bodies whose fields are missing or are not strings (JavaScript `undefined`, numbers): every field is modelled as a string, and `===` as string equality.
- Concurrent requests on one user document (read-then-write, last writer wins): each handler is modelled as one atomic step.
- The authentication middleware that supplies `req.user.id`: the user id is an input.
- backend/server.jsx (Express and Mongo wiring), frontend/src/context/AuthContext.jsx (React state, `localStorage`, network calls) and src/components/imageSearch.jsx (static markup): framework and I/O code with no logic to verify.
- The search, pagination and selection session: no code that implements it is part of this model.
