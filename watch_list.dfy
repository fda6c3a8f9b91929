/** The personal watch-list page: its `movies`, `loading`, `searchTerm` and
    `profile` state and the handlers that replace `movies`. The backend's
    answers are parameters of the handlers. */
module WatchListPage {
  import opened Lists
  import opened Movies
  import Text

  /** `profile?.username` is truthy: a profile with a non-empty user name. */
  predicate HasUsername(profile: Option<string>)
  {
    profile.Some? && profile.value != ""
  }

  class WatchList {
    var movies: seq<Row>
    var loading: bool
    var searchTerm: string
    /** The user name of the loaded profile. */
    var profile: Option<string>

    constructor ()
      ensures movies == [] && loading && searchTerm == "" && profile == None
    {
      movies := [];
      loading := true;
      searchTerm := "";
      profile := None;
    }

    /** `fetchProfile`: keep the user name when the query brought one. */
    method ProfileLoaded(reply: Reply<string>)
      modifies this`profile
      ensures profile == if reply.Answered? && reply.data.Some? then reply.data else None
    {
      if reply.Answered? && reply.data.Some? {
        profile := reply.data;
      } else {
        profile := None;
      }
    }

    /** `fetchMovies`: look up the ids on the user's list, then the rows with
        those ids, and enrich them at time `now`. Every early return leaves
        the list alone except an empty id list, which empties it. */
    method FetchMovies(now: int, idsReply: Reply<seq<int>>, rowsReply: Reply<seq<Movie>>)
      modifies this`movies, this`loading
      ensures !loading
      ensures !HasUsername(profile) ==> movies == old(movies)
      ensures HasUsername(profile) && idsReply.Failed? ==> movies == old(movies)
      ensures HasUsername(profile) && idsReply.Answered? && DataOr(idsReply, []) == [] ==> movies == []
      ensures HasUsername(profile) && idsReply.Answered? && DataOr(idsReply, []) != [] ==>
        movies == if rowsReply.Failed? then old(movies) else Enriched(DataOr(rowsReply, []), now)
    {
      loading := true;
      if !HasUsername(profile) {
        loading := false;
        return;
      }
      if idsReply.Failed? {
        loading := false;
        return;
      }
      var ids := DataOr(idsReply, []);
      if ids == [] {
        movies := [];
        loading := false;
        return;
      }
      if rowsReply.Failed? {
        loading := false;
        return;
      }
      movies := Enriched(DataOr(rowsReply, []), now);
      loading := false;
    }

    /** `handleRating`: on a successful update, the new rating on the rows with the id. */
    method HandleRating(movieId: int, rating: int, updateError: Option<string>)
      modifies this`movies
      ensures movies == if updateError.None? then WithRating(old(movies), movieId, rating) else old(movies)
    {
      if updateError.None? {
        movies := WithRating(movies, movieId, rating);
      }
    }

    /** `removeFromWatchlist`: on a successful delete, drop the rows with the
        id; on an error, keep the list and return the alert's text. */
    method RemoveFromWatchlist(movieId: int, deleteError: Option<string>) returns (alert: Option<string>)
      modifies this`movies
      ensures deleteError.None? ==> movies == Without(old(movies), movieId) && alert == None
      ensures deleteError.Some? ==> movies == old(movies)
      ensures deleteError.Some? ==> alert == Some("Failed to remove from watchlist: " + deleteError.value)
    {
      if deleteError.Some? {
        alert := Some("Failed to remove from watchlist: " + deleteError.value);
        return;
      }
      alert := None;
      movies := Without(movies, movieId);
    }

    /** One firing of the 1-second interval. */
    method Tick(now: int)
      modifies this`movies
      ensures movies == Ticked(old(movies), now)
    {
      movies := Ticked(movies, now);
    }

    method SetSearchTerm(term: string)
      modifies this`searchTerm
      ensures searchTerm == term
    {
      searchTerm := term;
    }

    /** The cards the grid renders. */
    function Visible(): (r: seq<Row>)
      reads this
      ensures Subsequence(r, movies)
      ensures forall row :: row in r <==> row in movies && Text.TitleMatches(row.movie.title, searchTerm)
      ensures forall row ::
        multiset(r)[row] == if Text.TitleMatches(row.movie.title, searchTerm) then multiset(movies)[row] else 0
    {
      Matching(movies, searchTerm)
    }
  }
}
