/** The two request handlers of backend/controllers/favorites.jsx over an
    abstract document store: a user is loaded into a fresh object, its
    favorites field is updated in place, and the object is saved back. */
module FavoritesStore {
  import opened Favorites

  type UserId = string

  /** What a handler answers: the updated list (200), the duplicate
      rejection "Image already in favorites" (400), or "Server Error" (500). */
  datatype Response = Ok(favorites: seq<Favorite>) | Duplicate | ServerError

  /** A loaded user document; handlers mutate its favorites field. */
  class User {
    const id: UserId
    var favorites: seq<Favorite>

    constructor (id: UserId, favs: seq<Favorite>)
      ensures this.id == id && favorites == favs
    {
      this.id := id;
      favorites := favs;
    }

    /** The duplicate check followed by the in-place push. */
    method AddFavorite(f: Favorite) returns (r: Response)
      modifies this
      ensures Contains(old(favorites), f.imageId) ==> r == Duplicate && favorites == old(favorites)
      ensures !Contains(old(favorites), f.imageId) ==> favorites == old(favorites) + [f] && r == Ok(favorites)
      ensures UniqueIds(old(favorites)) ==> UniqueIds(favorites)
    {
      if Contains(favorites, f.imageId) {
        return Duplicate;
      }
      if UniqueIds(favorites) {
        AppendPreservesUnique(favorites, f);
      }
      favorites := favorites + [f];
      r := Ok(favorites);
    }

    /** The filter, assigned back to the favorites field. */
    method RemoveFavorite(id: string) returns (r: Response)
      modifies this
      ensures favorites == Without(old(favorites), id) && r == Ok(favorites)
      ensures UniqueIds(old(favorites)) ==> UniqueIds(favorites)
    {
      if UniqueIds(favorites) {
        WithoutPreservesUnique(favorites, id);
      }
      favorites := Without(favorites, id);
      r := Ok(favorites);
    }
  }

  /** The persisted collection: one favorites list per user document. */
  class UserStore {
    var documents: map<UserId, seq<Favorite>>

    constructor (docs: map<UserId, seq<Favorite>>)
      ensures documents == docs
    {
      documents := docs;
    }

    /** Every stored list satisfies the no-duplicates invariant. */
    predicate AllUnique()
      reads this
    {
      forall u :: u in documents ==> UniqueIds(documents[u])
    }

    /** Loads a user into a fresh object; null when the id is unknown or the
        read fails (`readOk` is the outcome of the database read). */
    method FindById(id: UserId, readOk: bool) returns (u: User?)
      ensures u != null <==> readOk && id in documents
      ensures u != null ==> fresh(u) && u.id == id && u.favorites == documents[id]
    {
      if readOk && id in documents {
        u := new User(id, documents[id]);
      } else {
        u := null;
      }
    }

    /** Writes the user's list back to the document it was loaded from;
        `writeOk` is the outcome of the write. */
    method Save(u: User, writeOk: bool) returns (saved: bool)
      modifies this
      ensures saved == writeOk
      ensures documents == if writeOk then old(documents)[u.id := u.favorites] else old(documents)
    {
      saved := writeOk;
      if writeOk {
        documents := documents[u.id := u.favorites];
      }
    }
  }

  /** addFavorite for the authenticated user `userId`. */
  method HandleAddFavorite(store: UserStore, userId: UserId,
                           imageId: string, url: string, description: string, photographer: string,
                           readOk: bool, writeOk: bool) returns (r: Response)
    modifies store
    ensures !(readOk && userId in old(store.documents)) ==>
              r == ServerError && store.documents == old(store.documents)
    ensures readOk && userId in old(store.documents) && Contains(old(store.documents)[userId], imageId) ==>
              r == Duplicate && store.documents == old(store.documents)
    ensures readOk && userId in old(store.documents) && !Contains(old(store.documents)[userId], imageId) ==>
              var added := old(store.documents)[userId] + [Favorite(imageId, url, description, photographer)];
              if writeOk then r == Ok(added) && store.documents == old(store.documents)[userId := added]
              else r == ServerError && store.documents == old(store.documents)
    ensures old(store.AllUnique()) ==> store.AllUnique()
  {
    var user := store.FindById(userId, readOk);
    if user == null {
      return ServerError;
    }
    r := user.AddFavorite(Favorite(imageId, url, description, photographer));
    if r.Duplicate? {
      return;
    }
    var saved := store.Save(user, writeOk);
    if !saved {
      return ServerError;
    }
    r := Ok(user.favorites);
  }

  /** removeFavorite for the authenticated user `userId`. */
  method HandleRemoveFavorite(store: UserStore, userId: UserId, imageId: string,
                              readOk: bool, writeOk: bool) returns (r: Response)
    modifies store
    ensures !(readOk && userId in old(store.documents)) ==>
              r == ServerError && store.documents == old(store.documents)
    ensures readOk && userId in old(store.documents) ==>
              var kept := Without(old(store.documents)[userId], imageId);
              if writeOk then r == Ok(kept) && store.documents == old(store.documents)[userId := kept]
              else r == ServerError && store.documents == old(store.documents)
    ensures old(store.AllUnique()) ==> store.AllUnique()
  {
    var user := store.FindById(userId, readOk);
    if user == null {
      return ServerError;
    }
    r := user.RemoveFavorite(imageId);
    var saved := store.Save(user, writeOk);
    if !saved {
      return ServerError;
    }
    r := Ok(user.favorites);
  }

  /** A client: add an image to an empty list, add it again, then remove it
      twice; every assertion follows from the handlers' contracts. */
  method AddTwiceThenRemoveTwice(writeOk: bool)
  {
    var store := new UserStore(map["alice" := []]);
    var r := HandleAddFavorite(store, "alice", "u1", "https://x/1.jpg", "d", "p", true, true);
    var f := Favorite("u1", "https://x/1.jpg", "d", "p");
    assert r == Ok([f]);
    r := HandleAddFavorite(store, "alice", "u1", "https://x/1.jpg", "d", "p", true, writeOk);
    assert Contains(store.documents["alice"], "u1");
    assert r == Duplicate && store.documents["alice"] == [f];
    r := HandleRemoveFavorite(store, "alice", "u1", true, true);
    AddThenRemove([], f);
    assert r == Ok([]) && store.documents["alice"] == [];
    r := HandleRemoveFavorite(store, "alice", "u1", true, true);
    assert r == Ok([]);
    r := HandleRemoveFavorite(store, "bob", "u1", true, true);
    assert r == ServerError && store.documents == map["alice" := []];
  }
}
