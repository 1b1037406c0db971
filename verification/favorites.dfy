/**
 * The favorites store: a list of saved meals and cocktails with add (append, no duplicate
 * check), remove (every entry with the given id and type), membership and clear.
 */
module Favorites {
  import opened Dedup

  datatype FavoriteType = Meal | Cocktail

  datatype FavoriteItem = FavoriteItem(id: string, favType: FavoriteType, name: string, image: string, category: string)

  /** An entry is the one `(id, type)` names when both are equal. */
  predicate Matches(fav: FavoriteItem, id: string, t: FavoriteType) {
    fav.id == id && fav.favType == t
  }

  /** `favorites.some(...)`: scans from the front for an entry with that id and type. */
  function HasMatch(favs: seq<FavoriteItem>, id: string, t: FavoriteType): (b: bool)
    ensures b <==> exists i :: 0 <= i < |favs| && Matches(favs[i], id, t)
    decreases |favs|
  {
    if favs == [] then false
    else Matches(favs[0], id, t) || HasMatch(favs[1..], id, t)
  }

  /** `favorites.filter(fav => !(fav.id === id && fav.type === type))`. */
  function Without(favs: seq<FavoriteItem>, id: string, t: FavoriteType): seq<FavoriteItem>
    decreases |favs|
  {
    if favs == [] then []
    else
      var init, last := favs[..|favs| - 1], favs[|favs| - 1];
      if Matches(last, id, t) then Without(init, id, t) else Without(init, id, t) + [last]
  }

  /**
   * Removal keeps exactly the other entries: nothing left matches, every other entry keeps
   * its multiplicity (so the same id with the other type survives), and order is kept.
   */
  lemma {:induction false} WithoutSpec(favs: seq<FavoriteItem>, id: string, t: FavoriteType)
    ensures forall x :: x in Without(favs, id, t) ==> !Matches(x, id, t)
    ensures forall x :: !Matches(x, id, t) ==> multiset(Without(favs, id, t))[x] == multiset(favs)[x]
    ensures Subsequence(Without(favs, id, t), favs)
    decreases |favs|
  {
    if favs != [] {
      var init, last := favs[..|favs| - 1], favs[|favs| - 1];
      WithoutSpec(init, id, t);
      assert favs == init + [last];
      var prev := Without(init, id, t);
      if !Matches(last, id, t) {
        assert (prev + [last])[..|prev|] == prev;
      } else if prev != [] {
        assert Subsequence(prev, favs[..|favs| - 1]);
      }
    }
  }

  /** Removing an absent pair changes nothing. */
  lemma {:induction false} WithoutAbsent(favs: seq<FavoriteItem>, id: string, t: FavoriteType)
    requires !HasMatch(favs, id, t)
    ensures Without(favs, id, t) == favs
    decreases |favs|
  {
    if favs != [] {
      var init := favs[..|favs| - 1];
      assert !HasMatch(init, id, t) by {
        forall i | 0 <= i < |init| ensures !Matches(init[i], id, t) {
          assert init[i] == favs[i];
        }
      }
      WithoutAbsent(init, id, t);
      assert favs == init + [favs[|favs| - 1]];
    }
  }

  /** Removing twice is removing once. */
  lemma WithoutIdempotent(favs: seq<FavoriteItem>, id: string, t: FavoriteType)
    ensures Without(Without(favs, id, t), id, t) == Without(favs, id, t)
  {
    WithoutSpec(favs, id, t);
    var r := Without(favs, id, t);
    assert !HasMatch(r, id, t) by {
      forall i | 0 <= i < |r| ensures !Matches(r[i], id, t) {
        assert r[i] in r;
      }
    }
    WithoutAbsent(r, id, t);
  }

  /** Adding does no duplicate check: adding a saved pair again leaves two entries for it. */
  lemma AddKeepsDuplicates(favs: seq<FavoriteItem>, item: FavoriteItem)
    requires HasMatch(favs, item.id, item.favType)
    ensures var after := favs + [item];
      exists i, j :: 0 <= i < j < |after| && Matches(after[i], item.id, item.favType) && Matches(after[j], item.id, item.favType)
  {
    var after := favs + [item];
    var i :| 0 <= i < |favs| && Matches(favs[i], item.id, item.favType);
    assert after[i] == favs[i] && after[|favs|] == item;
  }

  class FavoritesStore {
    var favorites: seq<FavoriteItem>

    /** The store starts empty. */
    constructor ()
      ensures favorites == []
    {
      favorites := [];
    }

    /** `isFavorite`: some entry has exactly this id and type. */
    function IsFavorite(id: string, t: FavoriteType): (b: bool)
      reads this
      ensures b <==> exists i :: 0 <= i < |favorites| && Matches(favorites[i], id, t)
    {
      HasMatch(favorites, id, t)
    }

    /** `addFavorite`: appends the item, keeping every earlier entry in place. */
    method AddFavorite(item: FavoriteItem)
      modifies this
      ensures favorites == old(favorites) + [item]
      ensures IsFavorite(item.id, item.favType)
    {
      favorites := favorites + [item];
      assert Matches(favorites[|favorites| - 1], item.id, item.favType);
    }

    /** `removeFavorite`: drops every entry with this id and type and keeps the rest in order. */
    method RemoveFavorite(id: string, t: FavoriteType)
      modifies this
      ensures favorites == Without(old(favorites), id, t)
      ensures !IsFavorite(id, t)
      ensures !old(IsFavorite(id, t)) ==> favorites == old(favorites)
    {
      WithoutSpec(favorites, id, t);
      if !HasMatch(favorites, id, t) {
        WithoutAbsent(favorites, id, t);
      }
      favorites := Without(favorites, id, t);
      assert forall i :: 0 <= i < |favorites| ==> favorites[i] in favorites;
    }

    /** `clearFavorites`: empties the list. */
    method ClearFavorites()
      modifies this
      ensures favorites == []
    {
      favorites := [];
    }
  }
}
