/** The movie records both pages keep in their `movies` state, and the
    `map`/`filter` transformations the pages apply to that list. */
module Movies {
  import opened Lists
  import opened Timing
  import opened Text

  /** A row of the `est` table. The two dates are held as the timestamps
      `new Date(start_date)` and `new Date(end_date)` stand for. */
  datatype Movie = Movie(
    id: int,
    title: string,
    season: int,
    episode: int,
    startDate: int,
    endDate: int,
    genre: string,
    link: string,
    status: string,
    rating: int)

  /** `MovieWithTimer`: the stored fields and the two derived strings; the
      empty string the home page starts them with is `None`. */
  datatype Row = Row(movie: Movie, timer: Option<Countdown>, computedStatus: Option<Status>)

  /** What a backend query resolves to: an error, or data that may be null. */
  datatype Reply<T> = Failed(message: string) | Answered(data: Option<T>)

  /** `reply.data || fallback` for a reply without an error. */
  function DataOr<T>(reply: Reply<T>, fallback: T): T
  {
    if reply.Answered? && reply.data.Some? then reply.data.value else fallback
  }

  /** One row as a timer tick or the watch-list fetch leaves it. */
  function Refresh(row: Row, now: int): (r: Row)
    ensures r.movie == row.movie
    ensures r.timer == Some(NextEpisodeCountdown(now, row.movie.startDate))
    ensures r.computedStatus == Some(EpisodeStatus(now, row.movie.startDate, row.movie.endDate))
  {
    row.(timer := Some(NextEpisodeCountdown(now, row.movie.startDate)),
         computedStatus := Some(EpisodeStatus(now, row.movie.startDate, row.movie.endDate)))
  }

  /** The 1-second tick: every row gets a fresh timer and status. */
  function Ticked(rows: seq<Row>, now: int): (r: seq<Row>)
    ensures |r| == |rows|
    ensures forall i :: 0 <= i < |rows| ==> r[i] == Refresh(rows[i], now)
  {
    Map(rows, RefreshAt(now))
  }

  function RefreshAt(now: int): Row -> Row
  {
    (row: Row) => Refresh(row, now)
  }

  /** The watch-list enrichment of the fetched rows. */
  function Enriched(fetched: seq<Movie>, now: int): (r: seq<Row>)
    ensures |r| == |fetched|
    ensures forall i :: 0 <= i < |fetched| ==> r[i].movie == fetched[i]
    ensures forall i :: 0 <= i < |fetched| ==> r[i] == Refresh(r[i], now)
  {
    Map(fetched, m => Refresh(Row(m, None, None), now))
  }

  /** The home-page enrichment: timer and status start out empty. */
  function Blank(fetched: seq<Movie>): (r: seq<Row>)
    ensures |r| == |fetched|
    ensures forall i :: 0 <= i < |fetched| ==> r[i].movie == fetched[i]
    ensures forall i :: 0 <= i < |fetched| ==> r[i].timer == None && r[i].computedStatus == None
  {
    Map(fetched, m => Row(m, None, None))
  }

  /** The rating handler's update: the rows with the id get the new rating. */
  function WithRating(rows: seq<Row>, id: int, rating: int): (r: seq<Row>)
    ensures |r| == |rows|
    ensures forall i :: 0 <= i < |rows| && rows[i].movie.id == id ==>
      r[i] == rows[i].(movie := rows[i].movie.(rating := rating))
    ensures forall i :: 0 <= i < |rows| && rows[i].movie.id != id ==> r[i] == rows[i]
  {
    Map(rows, Rate(id, rating))
  }

  function Rate(id: int, rating: int): Row -> Row
  {
    (row: Row) => if row.movie.id == id then row.(movie := row.movie.(rating := rating)) else row
  }

  /** `removeFromWatchlist`'s update: the rows whose id differs, in order. */
  function Without(rows: seq<Row>, id: int): (r: seq<Row>)
    ensures Subsequence(r, rows)
    ensures forall row :: row in r <==> row in rows && row.movie.id != id
    ensures forall row :: multiset(r)[row] == if row.movie.id != id then multiset(rows)[row] else 0
  {
    FilterSpec(rows, KeepsOtherId(id));
    Filter(rows, KeepsOtherId(id))
  }

  function KeepsOtherId(id: int): Row -> bool
  {
    (row: Row) => row.movie.id != id
  }

  /** The search filter of the rendered grid. */
  function Matching(rows: seq<Row>, term: string): (r: seq<Row>)
    ensures Subsequence(r, rows)
    ensures forall row :: row in r <==> row in rows && TitleMatches(row.movie.title, term)
    ensures forall row ::
      multiset(r)[row] == if TitleMatches(row.movie.title, term) then multiset(rows)[row] else 0
  {
    FilterSpec(rows, TitleContains(term));
    Filter(rows, TitleContains(term))
  }

  function TitleContains(term: string): Row -> bool
  {
    (row: Row) => TitleMatches(row.movie.title, term)
  }

  /** The rows that start at time `t`. */
  function StartsAt(t: int): Row -> bool
  {
    (row: Row) => row.movie.startDate == t
  }

  /** The countdown a card shows: only while the status is Ongoing and the
      timer is not empty. */
  function ShownTimer(row: Row): (r: Option<Countdown>)
    ensures r.Some? <==> row.computedStatus == Some(Ongoing) && row.timer.Some?
    ensures r.Some? ==> r == row.timer
  {
    if row.computedStatus == Some(Ongoing) && row.timer.Some? then row.timer else None
  }

  // ---------------------------------------------------------------------
  // Removal and search

  /** Removing an id that no row has changes nothing. */
  lemma WithoutAbsent(rows: seq<Row>, id: int)
    requires forall row :: row in rows ==> row.movie.id != id
    ensures Without(rows, id) == rows
  {
    FilterKeepsAll(rows, KeepsOtherId(id));
  }

  /** Removing the same id twice is removing it once. */
  lemma WithoutTwice(rows: seq<Row>, id: int)
    ensures Without(Without(rows, id), id) == Without(rows, id)
  {
    WithoutAbsent(Without(rows, id), id);
  }

  /** After a removal no row has the id. */
  lemma WithoutRemovesId(rows: seq<Row>, id: int, i: int)
    requires 0 <= i < |Without(rows, id)|
    ensures Without(rows, id)[i].movie.id != id
  {
    assert Without(rows, id)[i] in Without(rows, id);
  }

  /** Rating a show and then removing it leaves what removing it leaves. */
  lemma WithoutAfterRating(rows: seq<Row>, id: int, rating: int)
    ensures Without(WithRating(rows, id, rating), id) == Without(rows, id)
  {
    FilterMapCommute(rows, Rate(id, rating), KeepsOtherId(id), KeepsOtherId(id));
    var kept := Filter(rows, KeepsOtherId(id));
    FilterSpec(rows, KeepsOtherId(id));
    assert forall i :: 0 <= i < |kept| ==> kept[i] in kept;
    MapFixes(kept, Rate(id, rating));
  }

  /** An empty search term keeps every row. */
  lemma MatchingEmptyTerm(rows: seq<Row>)
    ensures Matching(rows, "") == rows
  {
    forall row | row in rows ensures TitleMatches(row.movie.title, "") {
      EmptyTermMatches(row.movie.title);
    }
    FilterKeepsAll(rows, TitleContains(""));
  }

  // ---------------------------------------------------------------------
  // The tick

  /** Two ticks at the same instant give what one gives. */
  lemma TickIdempotent(rows: seq<Row>, now: int)
    ensures Ticked(Ticked(rows, now), now) == Ticked(rows, now)
  {
  }

  /** The fetch-time enrichment of the watch list is a tick of blank rows. */
  lemma EnrichedIsTickedBlank(fetched: seq<Movie>, now: int)
    ensures Enriched(fetched, now) == Ticked(Blank(fetched), now)
  {
  }

  /** Ratings and ticks touch different fields: their order does not matter. */
  lemma TickCommutesWithRating(rows: seq<Row>, id: int, rating: int, now: int)
    ensures Ticked(WithRating(rows, id, rating), now) == WithRating(Ticked(rows, now), id, rating)
  {
  }

  /** A tick keeps the ids, so removing before or after it is the same. */
  lemma TickCommutesWithRemoval(rows: seq<Row>, id: int, now: int)
    ensures Ticked(Without(rows, id), now) == Without(Ticked(rows, now), id)
  {
    FilterMapCommute(rows, RefreshAt(now), KeepsOtherId(id), KeepsOtherId(id));
  }

  /** After a tick every card shows a status, and it shows a countdown exactly
      when that status is Ongoing; the countdown is never the "airing now" text. */
  lemma TickedCards(rows: seq<Row>, now: int, i: int)
    requires 0 <= i < |rows|
    ensures var row := Ticked(rows, now)[i];
      && row.computedStatus.Some?
      && (ShownTimer(row).Some? <==> rows[i].movie.startDate <= now <= rows[i].movie.endDate)
      && (ShownTimer(row).Some? ==> ShownTimer(row).value.NextEpisodeIn?)
  {
    AiringNowUnreachable(now, rows[i].movie.startDate);
  }
}
