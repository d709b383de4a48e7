/** The favorites list of one user: an ordered sequence of records keyed by
    an image identifier, with the membership test that guards an addition and
    the filter that performs a removal (backend/controllers/favorites.jsx). */
module Favorites {

  /** One saved image, built from the four fields of the request body. */
  datatype Favorite = Favorite(imageId: string, url: string, description: string, photographer: string)

  /** The duplicate check of addFavorite: some entry carries `id`. */
  function Contains(favs: seq<Favorite>, id: string): (b: bool)
    ensures b <==> exists k :: 0 <= k < |favs| && favs[k].imageId == id
  {
    if favs == [] then false
    else favs[0].imageId == id || Contains(favs[1..], id)
  }

  /** Number of entries that carry `id`. */
  function Count(favs: seq<Favorite>, id: string): (n: nat)
    ensures n <= |favs|
    ensures n == 0 <==> !Contains(favs, id)
  {
    if favs == [] then 0
    else (if favs[0].imageId == id then 1 else 0) + Count(favs[1..], id)
  }

  /** The filter of removeFavorite: the entries whose id differs from `id`. */
  function Without(favs: seq<Favorite>, id: string): (r: seq<Favorite>)
    ensures forall k :: 0 <= k < |r| ==> r[k].imageId != id
    ensures |r| + Count(favs, id) == |favs|
  {
    if favs == [] then []
    else if favs[0].imageId == id then Without(favs[1..], id)
    else [favs[0]] + Without(favs[1..], id)
  }

  /** The invariant of a user's list: no two entries share an image id. */
  predicate UniqueIds(favs: seq<Favorite>)
  {
    forall i, j :: 0 <= i < j < |favs| ==> favs[i].imageId != favs[j].imageId
  }

  /** `s` is obtained from `t` by deleting some entries, keeping the order of the rest. */
  predicate IsSubsequence(s: seq<Favorite>, t: seq<Favorite>)
  {
    if s == [] then true
    else if t == [] then false
    else if s[0] == t[0] then IsSubsequence(s[1..], t[1..])
    else IsSubsequence(s, t[1..])
  }

  /** An independent description of a removal of `id` from `favs`: an
      order-preserving selection of entries, none with `id`, that keeps as
      many entries as there are entries with other ids. */
  predicate IsRemoval(s: seq<Favorite>, favs: seq<Favorite>, id: string)
  {
    IsSubsequence(s, favs)
    && (forall k :: 0 <= k < |s| ==> s[k].imageId != id)
    && |s| + Count(favs, id) == |favs|
  }

  // ---------------------------------------------------------------------
  // Removal

  /** An entry survives a removal exactly when it was present and has another id. */
  lemma {:induction false} WithoutMembers(favs: seq<Favorite>, id: string, f: Favorite)
    ensures f in Without(favs, id) <==> f in favs && f.imageId != id
  {
    if favs != [] {
      WithoutMembers(favs[1..], id, f);
      assert favs == [favs[0]] + favs[1..];
    }
  }

  /** Removing an id that is not present leaves the list as it was. */
  lemma {:induction false} WithoutAbsent(favs: seq<Favorite>, id: string)
    requires !Contains(favs, id)
    ensures Without(favs, id) == favs
  {
    if favs != [] {
      WithoutAbsent(favs[1..], id);
      assert favs == [favs[0]] + favs[1..];
    }
  }

  /** Removing twice is removing once. */
  lemma {:induction false} WithoutIdempotent(favs: seq<Favorite>, id: string)
    ensures Without(Without(favs, id), id) == Without(favs, id)
  {
    WithoutAbsent(Without(favs, id), id);
  }

  /** The filter distributes over concatenation. */
  lemma {:induction false} WithoutAppend(a: seq<Favorite>, b: seq<Favorite>, id: string)
    ensures Without(a + b, id) == Without(a, id) + Without(b, id)
  {
    if a == [] {
      assert a + b == b;
    } else {
      var ab := a + b;
      assert ab[0] == a[0];
      assert ab[1..] == a[1..] + b;
      WithoutAppend(a[1..], b, id);
      if a[0].imageId == id {
        calc {
          Without(ab, id);
          Without(ab[1..], id);
          Without(a[1..], id) + Without(b, id);
          Without(a, id) + Without(b, id);
        }
      } else {
        calc {
          Without(ab, id);
          [a[0]] + Without(ab[1..], id);
          [a[0]] + (Without(a[1..], id) + Without(b, id));
          ([a[0]] + Without(a[1..], id)) + Without(b, id);
          Without(a, id) + Without(b, id);
        }
      }
    }
  }

  /** The entries that survive a removal keep their relative order. */
  lemma {:induction false} WithoutIsSubsequence(favs: seq<Favorite>, id: string)
    ensures IsSubsequence(Without(favs, id), favs)
  {
    if favs != [] {
      WithoutIsSubsequence(favs[1..], id);
    }
  }

  /** Without meets the independent description of a removal. */
  lemma {:induction false} WithoutIsRemoval(favs: seq<Favorite>, id: string)
    ensures IsRemoval(Without(favs, id), favs, id)
  {
    WithoutIsSubsequence(favs, id);
  }

  /** A subsequence made of entries without `id` is no longer than the entries with other ids. */
  lemma {:induction false} SubsequenceBound(s: seq<Favorite>, t: seq<Favorite>, id: string)
    requires IsSubsequence(s, t)
    requires forall k :: 0 <= k < |s| ==> s[k].imageId != id
    ensures |s| + Count(t, id) <= |t|
  {
    if s != [] {
      assert t != [];
      if s[0] == t[0] {
        SubsequenceBound(s[1..], t[1..], id);
      } else {
        SubsequenceBound(s, t[1..], id);
      }
    }
  }

  /** Exactly one list is a removal of `id` from `favs`, and it is Without(favs, id):
      the original entries with other ids, in their original order. */
  lemma {:induction false} RemovalIsUnique(s: seq<Favorite>, favs: seq<Favorite>, id: string)
    requires IsRemoval(s, favs, id)
    ensures s == Without(favs, id)
  {
    if s == [] {
      assert |Without(favs, id)| == 0;
    } else {
      assert favs != [];
      var x, rest := favs[0], favs[1..];
      if s[0] == x {
        assert x.imageId != id;
        RemovalIsUnique(s[1..], rest, id);
        assert s == [s[0]] + s[1..];
      } else if x.imageId == id {
        RemovalIsUnique(s, rest, id);
      } else {
        SubsequenceBound(s, rest, id);
        assert false;
      }
    }
  }

  /** Removal keeps the no-duplicates invariant. */
  lemma {:induction false} WithoutPreservesUnique(favs: seq<Favorite>, id: string)
    requires UniqueIds(favs)
    ensures UniqueIds(Without(favs, id))
  {
    if favs != [] {
      var rest := favs[1..];
      assert UniqueIds(rest) by {
        forall i, j | 0 <= i < j < |rest| ensures rest[i].imageId != rest[j].imageId {
          assert favs[i + 1] == rest[i] && favs[j + 1] == rest[j];
        }
      }
      WithoutPreservesUnique(rest, id);
      if favs[0].imageId != id {
        var r := Without(favs, id);
        assert r == [favs[0]] + Without(rest, id);
        forall k | 0 <= k < |Without(rest, id)| ensures Without(rest, id)[k].imageId != favs[0].imageId {
          var e := Without(rest, id)[k];
          WithoutMembers(rest, id, e);
          var j :| 0 <= j < |rest| && rest[j] == e;
          assert favs[j + 1] == e;
        }
      }
    }
  }

  // ---------------------------------------------------------------------
  // Addition

  /** Appending an entry whose id is absent keeps the no-duplicates invariant. */
  lemma AppendPreservesUnique(favs: seq<Favorite>, f: Favorite)
    requires UniqueIds(favs)
    requires !Contains(favs, f.imageId)
    ensures UniqueIds(favs + [f])
  {
    var s := favs + [f];
    forall i, j | 0 <= i < j < |s| ensures s[i].imageId != s[j].imageId {
      if j == |favs| {
        assert s[i] == favs[i];
      } else {
        assert s[i] == favs[i] && s[j] == favs[j];
      }
    }
  }

  /** Adding a fresh image and then removing it gives back the original list. */
  lemma AddThenRemove(favs: seq<Favorite>, f: Favorite)
    requires !Contains(favs, f.imageId)
    ensures Without(favs + [f], f.imageId) == favs
  {
    WithoutAppend(favs, [f], f.imageId);
    WithoutAbsent(favs, f.imageId);
    assert Without([f], f.imageId) == [] by {
      assert [f][1..] == [];
    }
  }
}
