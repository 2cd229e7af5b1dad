/** The favourites page (src/pages/Favorites.tsx): high-priority tasks count
    as favourites, and the page shows an empty state when there are none. */
module Favorites {
  import opened Seqs
  import opened TaskTypes

  predicate IsFavorite(t: Task) {
    t.priority == High
  }

  /** `tasks.filter((t) => t.priority === 'high')`. */
  function FavoriteTasks(tasks: seq<Task>): (r: seq<Task>)
    ensures forall i :: 0 <= i < |r| ==> r[i].priority == High && r[i] in tasks
    ensures forall i :: 0 <= i < |tasks| && tasks[i].priority == High ==> tasks[i] in r
  {
    Filter(tasks, IsFavorite)
  }

  /** Favourites appear in the order of the task list. */
  lemma FavoritesKeepOrder(tasks: seq<Task>)
    ensures IsSubsequence(FavoriteTasks(tasks), tasks)
  {
    FilterIsSubsequence(tasks, IsFavorite);
  }

  /** Filtering a second time changes nothing. */
  lemma FavoritesIdempotent(tasks: seq<Task>)
    ensures FavoriteTasks(FavoriteTasks(tasks)) == FavoriteTasks(tasks)
  {
    FilterKeepsAll(FavoriteTasks(tasks), IsFavorite);
  }

  /** The list of favourite cards, or the "No favorites yet" message. */
  datatype FavoritesView = NoFavoritesYet | Cards(tasks: seq<Task>)

  function FavoritesPage(tasks: seq<Task>): (r: FavoritesView)
    ensures r.NoFavoritesYet? <==> forall i :: 0 <= i < |tasks| ==> tasks[i].priority != High
    ensures r.Cards? ==> r.tasks != [] && forall i :: 0 <= i < |r.tasks| ==> r.tasks[i].priority == High
    ensures r.Cards? ==> r.tasks == FavoriteTasks(tasks)
  {
    var favorites := FavoriteTasks(tasks);
    if |favorites| == 0 then NoFavoritesYet
    else
      assert favorites[0] in tasks;
      Cards(favorites)
  }
}
