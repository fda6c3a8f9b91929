/** The home page: every show, ordered by start date, with the page's own
    copy of the timing functions. */
module HomePage {
  import opened Lists
  import Timing
  import opened Movies
  import Text

  const MsInWeek: int := 7 * 24 * 60 * 60 * 1000

  /** This page's copy of `getEpisodeStatus`. */
  function EpisodeStatus(now: int, start: int, end: int): Timing.Status
  {
    if now < start then Timing.Soon
    else if now > end then Timing.Finished
    else Timing.Ongoing
  }

  /** This page's copy of `getNextEpisodeCountdown`. */
  function NextEpisodeCountdown(now: int, start: int): Timing.Countdown
  {
    var weeksSinceStart := (now - start) / MsInWeek;
    var next := start + (weeksSinceStart + 1) * MsInWeek;
    if now < next then
      var timeDiff := next - now;
      Timing.NextEpisodeIn(timeDiff / (1000 * 60 * 60 * 24), (timeDiff / (1000 * 60 * 60)) % 24,
                           (timeDiff / (1000 * 60)) % 60, (timeDiff / 1000) % 60)
    else
      Timing.AiringNow
  }

  /** The two copies of the timing engine compute the same functions, so
      every property proved of the watch-list copy holds of this one. */
  lemma CopiesAgree(now: int, start: int, end: int)
    ensures EpisodeStatus(now, start, end) == Timing.EpisodeStatus(now, start, end)
    ensures NextEpisodeCountdown(now, start) == Timing.NextEpisodeCountdown(now, start)
  {
  }

  /** In particular this copy never produces the "airing now" text either,
      and its numbers keep the same bounds. */
  lemma CountdownBounds(now: int, start: int)
    ensures var c := NextEpisodeCountdown(now, start);
      && c.NextEpisodeIn?
      && 0 <= c.days <= 7 && 0 <= c.hours < 24 && 0 <= c.minutes < 60 && 0 <= c.seconds < 60
  {
    CopiesAgree(now, start, start);
    Timing.CountdownBounds(now, start);
  }

  /** What the status line of a card reads: `computedStatus || "Loading..."`. */
  function StatusCaption(row: Row): (r: string)
    ensures row.computedStatus.None? <==> r == "Loading..."
    ensures row.computedStatus.Some? ==> r == Timing.StatusText(row.computedStatus.value)
  {
    match row.computedStatus
    case None => "Loading..."
    case Some(s) => Timing.StatusText(s)
  }

  /** Rows ordered non-decreasingly by start time. */
  ghost predicate SortedByStart(s: seq<Row>)
  {
    forall i, j :: 0 <= i < j < |s| ==> s[i].movie.startDate <= s[j].movie.startDate
  }

  /** Rows that start at the same time are in the same order in `r` as in `s`,
      the stability ECMAScript requires of `Array.prototype.sort`. */
  ghost predicate StableByStart(r: seq<Row>, s: seq<Row>)
  {
    forall t :: Filter(r, StartsAt(t)) == Filter(s, StartsAt(t))
  }

  /** Sorting by start time stably has one outcome: two sorted lists that
      agree on the order of the rows of every start time are equal. */
  lemma {:induction false} SortedStableUnique(r1: seq<Row>, r2: seq<Row>)
    requires SortedByStart(r1) && SortedByStart(r2)
    requires forall t :: Filter(r1, StartsAt(t)) == Filter(r2, StartsAt(t))
    ensures r1 == r2
    decreases |r1|
  {
    if r1 != [] && r2 != [] {
      SameHeadSameTails(r1, r2);
      SortedStableUnique(r1[1..], r2[1..]);
      assert r1 == [r1[0]] + r1[1..] && r2 == [r2[0]] + r2[1..];
    } else if r1 != [] {
      KeptAtOwnStart(r1, r1[0]);
      assert false;
    } else if r2 != [] {
      KeptAtOwnStart(r2, r2[0]);
      assert false;
    }
  }

  /** Two such lists start with the same row, and what follows it is again
      two such lists. */
  lemma SameHeadSameTails(r1: seq<Row>, r2: seq<Row>)
    requires r1 != [] && r2 != []
    requires SortedByStart(r1) && SortedByStart(r2)
    requires forall t :: Filter(r1, StartsAt(t)) == Filter(r2, StartsAt(t))
    ensures r1[0] == r2[0]
    ensures SortedByStart(r1[1..]) && SortedByStart(r2[1..])
    ensures forall t :: Filter(r1[1..], StartsAt(t)) == Filter(r2[1..], StartsAt(t))
  {
    SameHead(r1, r2);
    SameTailFilters(r1, r2);
    SortedByStartTail(r1);
    SortedByStartTail(r2);
  }

  /** Two such lists start with the same row. */
  lemma SameHead(r1: seq<Row>, r2: seq<Row>)
    requires r1 != [] && r2 != []
    requires SortedByStart(r1) && SortedByStart(r2)
    requires forall t :: Filter(r1, StartsAt(t)) == Filter(r2, StartsAt(t))
    ensures r1[0] == r2[0]
  {
    var t1, t2 := r1[0].movie.startDate, r2[0].movie.startDate;
    SortedHeadIsEarliest(r1, r2[0], t2);
    SortedHeadIsEarliest(r2, r1[0], t1);
    assert Filter(r1, StartsAt(t1)) == Filter(r2, StartsAt(t1));
    HeadLeadsItsStart(r1);
    HeadLeadsItsStart(r2);
  }

  /** A row of the other list that starts at `t` is a row of this list, so
      the head of this sorted list starts no later than `t`. */
  lemma SortedHeadIsEarliest(r: seq<Row>, x: Row, t: int)
    requires r != [] && SortedByStart(r) && x.movie.startDate == t
    requires x in Filter(r, StartsAt(t))
    ensures r[0].movie.startDate <= t
  {
    FilterMember(r, StartsAt(t), x);
  }

  /** The head of a list is the first row kept for its own start time. */
  lemma HeadLeadsItsStart(r: seq<Row>)
    requires r != []
    ensures Filter(r, StartsAt(r[0].movie.startDate)) != []
    ensures Filter(r, StartsAt(r[0].movie.startDate))[0] == r[0]
  {
  }

  /** Dropping the common head keeps the lists' agreement. */
  lemma SameTailFilters(r1: seq<Row>, r2: seq<Row>)
    requires r1 != [] && r2 != [] && r1[0] == r2[0]
    requires forall t :: Filter(r1, StartsAt(t)) == Filter(r2, StartsAt(t))
    ensures forall t :: Filter(r1[1..], StartsAt(t)) == Filter(r2[1..], StartsAt(t))
  {
    assert r1 == [r1[0]] + r1[1..] && r2 == [r2[0]] + r2[1..];
    forall t ensures Filter(r1[1..], StartsAt(t)) == Filter(r2[1..], StartsAt(t)) {
      if StartsAt(t)(r1[0]) {
        var f1, f2 := Filter(r1, StartsAt(t)), Filter(r2, StartsAt(t));
        assert f1 == [r1[0]] + Filter(r1[1..], StartsAt(t));
        assert f2 == [r2[0]] + Filter(r2[1..], StartsAt(t));
        assert f1[1..] == Filter(r1[1..], StartsAt(t));
        assert f2[1..] == Filter(r2[1..], StartsAt(t));
      }
    }
  }

  lemma SortedByStartTail(s: seq<Row>)
    requires s != [] && SortedByStart(s)
    ensures SortedByStart(s[1..])
  {
    assert forall i :: 0 <= i < |s| - 1 ==> s[1..][i] == s[i + 1];
  }

  /** A row is kept by the filter for its own start time. */
  lemma KeptAtOwnStart(r: seq<Row>, x: Row)
    requires x in r
    ensures x in Filter(r, StartsAt(x.movie.startDate))
  {
    FilterSpec(r, StartsAt(x.movie.startDate));
  }

  /** Exchanges a row with the one before it. */
  method SwapWithPrevious(a: array<Row>, j: int)
    requires 0 < j < a.Length
    modifies a
    ensures a[j - 1] == old(a[j]) && a[j] == old(a[j - 1])
    ensures forall k :: 0 <= k < a.Length && k != j - 1 && k != j ==> a[k] == old(a[k])
    ensures a[j - 1].movie.startDate != a[j].movie.startDate ==>
      forall t :: Filter(a[..], StartsAt(t)) == Filter(old(a[..]), StartsAt(t))
  {
    ghost var s := a[..];
    a[j - 1], a[j] := a[j], a[j - 1];
    assert a[..] == s[j - 1 := s[j]][j := s[j - 1]];
    if s[j - 1].movie.startDate != s[j].movie.startDate {
      forall t ensures Filter(a[..], StartsAt(t)) == Filter(s, StartsAt(t)) {
        FilterSwapNeighbours(s, j, StartsAt(t));
      }
    }
  }

  /** Moves `a[i]` left past every row that starts later, so that the first
      `i + 1` rows are in order. */
  method InsertByStart(a: array<Row>, i: int)
    requires 0 <= i < a.Length
    requires forall k, l :: 0 <= k < l < i ==> a[k].movie.startDate <= a[l].movie.startDate
    modifies a
    ensures forall k, l :: 0 <= k < l <= i ==> a[k].movie.startDate <= a[l].movie.startDate
    ensures forall k :: i < k < a.Length ==> a[k] == old(a[k])
    ensures forall t :: Filter(a[..], StartsAt(t)) == Filter(old(a[..]), StartsAt(t))
  {
    var j := i;
    while j > 0 && a[j - 1].movie.startDate > a[j].movie.startDate
      invariant 0 <= j <= i
      invariant forall k, l :: 0 <= k < l <= i && k != j && l != j ==>
        a[k].movie.startDate <= a[l].movie.startDate
      invariant forall l :: j < l <= i ==> a[j].movie.startDate <= a[l].movie.startDate
      invariant forall k :: i < k < a.Length ==> a[k] == old(a[k])
      invariant forall t :: Filter(a[..], StartsAt(t)) == Filter(old(a[..]), StartsAt(t))
    {
      SwapWithPrevious(a, j);
      j := j - 1;
    }
  }

  /** `enrichedData.sort((a, b) => start(a) - start(b))`, as an insertion sort in place. */
  method SortByStart(a: array<Row>)
    modifies a
    ensures SortedByStart(a[..])
    ensures multiset(a[..]) == multiset(old(a[..]))
    ensures StableByStart(a[..], old(a[..]))
  {
    var i := 0;
    while i < a.Length
      invariant 0 <= i <= a.Length
      invariant forall k, l :: 0 <= k < l < i ==> a[k].movie.startDate <= a[l].movie.startDate
      invariant forall t :: Filter(a[..], StartsAt(t)) == Filter(old(a[..]), StartsAt(t))
    {
      InsertByStart(a, i);
      i := i + 1;
    }
    StableIsPermutation(a[..], old(a[..]));
  }

  /** Agreeing on the rows of every start time makes two lists permutations
      of each other. */
  lemma StableIsPermutation(r: seq<Row>, s: seq<Row>)
    requires StableByStart(r, s)
    ensures multiset(r) == multiset(s)
  {
    forall x ensures multiset(r)[x] == multiset(s)[x] {
      FilterSpec(r, StartsAt(x.movie.startDate));
      FilterSpec(s, StartsAt(x.movie.startDate));
      assert multiset(Filter(r, StartsAt(x.movie.startDate)))[x] == multiset(r)[x];
    }
  }

  /** Freshly fetched rows, in any order, show "Loading..." and no countdown. */
  lemma BlankRowsAreLoading(rows: seq<Row>, fetched: seq<Movie>, i: int)
    requires multiset(rows) == multiset(Blank(fetched))
    requires 0 <= i < |rows|
    ensures StatusCaption(rows[i]) == "Loading..."
    ensures ShownTimer(rows[i]) == None
  {
    assert rows[i] in multiset(Blank(fetched));
    var k :| 0 <= k < |Blank(fetched)| && Blank(fetched)[k] == rows[i];
  }

  class Home {
    var movies: seq<Row>
    /** The show whose bookmark button is disabled while its insert runs. */
    var addingId: Option<int>
    var searchTerm: string

    constructor ()
      ensures movies == [] && addingId == None && searchTerm == ""
    {
      movies := [];
      addingId := None;
      searchTerm := "";
    }

    /** `fetchMovies`: every row, blank-enriched and sorted by start time;
        an error or null data empties the list. */
    method FetchMovies(reply: Reply<seq<Movie>>)
      modifies this`movies
      ensures !(reply.Answered? && reply.data.Some?) ==> movies == []
      ensures reply.Answered? && reply.data.Some? ==>
        && multiset(movies) == multiset(Blank(reply.data.value))
        && SortedByStart(movies)
        && StableByStart(movies, Blank(reply.data.value))
    {
      if !(reply.Answered? && reply.data.Some?) {
        movies := [];
        return;
      }
      var enriched := Blank(reply.data.value);
      var a := new Row[|enriched|](i requires 0 <= i < |enriched| => enriched[i]);
      assert a[..] == enriched;
      SortByStart(a);
      movies := a[..];
    }

    /** `addWatchlist` before its insert: the show's bookmark button turns
        disabled, since the grid renders `disabled={addingId === movie.id}`. */
    method BeginAdd(showId: int)
      modifies this`addingId
      ensures addingId == Some(showId)
    {
      addingId := Some(showId);
    }

    /** `addWatchlist` once the insert has answered: no button is disabled any
        more, and the result is the alert's text. */
    method FinishAdd(insertError: Option<string>) returns (alert: string)
      modifies this`addingId
      ensures addingId == None
      ensures alert == if insertError.Some? then "Failed to add: " + insertError.value else "Added to watchlist!"
    {
      addingId := None;
      if insertError.Some? {
        alert := "Failed to add: " + insertError.value;
      } else {
        alert := "Added to watchlist!";
      }
    }

    /** `handleRating`: on a successful update, the new rating on the rows with the id. */
    method HandleRating(movieId: int, rating: int, updateError: Option<string>)
      modifies this`movies
      ensures movies == if updateError.None? then WithRating(old(movies), movieId, rating) else old(movies)
    {
      if updateError.None? {
        movies := WithRating(movies, movieId, rating);
      }
    }

    /** One firing of the 1-second interval. */
    method Tick(now: int)
      modifies this`movies
      ensures movies == Ticked(old(movies), now)
    {
      movies := Ticked(movies, now);
    }

    method SetSearchTerm(term: string)
      modifies this`searchTerm
      ensures searchTerm == term
    {
      searchTerm := term;
    }

    /** The cards the grid renders. */
    function Visible(): (r: seq<Row>)
      reads this
      ensures Subsequence(r, movies)
      ensures forall row :: row in r <==> row in movies && Text.TitleMatches(row.movie.title, searchTerm)
      ensures forall row ::
        multiset(r)[row] == if Text.TitleMatches(row.movie.title, searchTerm) then multiset(movies)[row] else 0
    {
      Matching(movies, searchTerm)
    }
  }
}
