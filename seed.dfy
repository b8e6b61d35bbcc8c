/** Start-up seeding of backend/app/core/seed.py: five demonstration
    movies, and one week of screenings that rotates each movie through
    four daily showtimes. */
module Seed {
  import opened Wrappers
  import opened Seqs
  import opened Text
  import opened Models

  // ---------------------------------------------------------------------
  // seed_movies

  datatype MovieData = MovieData(title: string, description: string, posterUrl: string, genre: string)

  const DummyMovies: seq<MovieData> := [
    MovieData("The Dark Knight Returns",
              "A gripping action thriller about a hero's return to save the city from chaos.",
              "https://picsum.photos/seed/movie1/400/600", "Action"),
    MovieData("Love in Paris",
              "A romantic tale of two strangers who meet under the Eiffel Tower.",
              "https://picsum.photos/seed/movie2/400/600", "Romance"),
    MovieData("Galaxy Warriors",
              "An epic space adventure across the universe to save humanity.",
              "https://picsum.photos/seed/movie3/400/600", "Sci-Fi"),
    MovieData("The Haunted Manor",
              "A chilling horror story set in an ancient mansion with dark secrets.",
              "https://picsum.photos/seed/movie4/400/600", "Horror"),
    MovieData("Comedy Night Live",
              "A hilarious ensemble comedy that will keep you laughing.",
              "https://picsum.photos/seed/movie5/400/600", "Comedy")
  ]

  /** `Movie(**movie_data)` once committed: the k-th one gets the k-th next id. */
  function SeededMovie(data: MovieData, id: nat, now: int): (m: Movie)
    ensures m.id == id && m.title == data.title && m.description == data.description
    ensures m.posterUrl == data.posterUrl && m.genre == data.genre
    ensures m.createdAt == now && m.updatedAt == now
  {
    Movie(id, data.title, data.description, data.posterUrl, data.genre, now, now)
  }

  /** The five rows `seed_movies` commits into an empty table. */
  function SeededMovies(nextId: nat, now: int): (ms: seq<Movie>)
    ensures |ms| == |DummyMovies|
    ensures forall k :: 0 <= k < |ms| ==> ms[k] == SeededMovie(DummyMovies[k], nextId + k, now)
  {
    seq(|DummyMovies|, k requires 0 <= k < |DummyMovies| => SeededMovie(DummyMovies[k], nextId + k, now))
  }

  /** The dummy movies fit their columns, so the commit is never refused. */
  lemma DummyMoviesFit(nextId: nat, now: int)
    ensures forall m :: m in SeededMovies(nextId, now) ==> MovieFits(m)
  {
    var ms := SeededMovies(nextId, now);
    forall k | 0 <= k < |ms| ensures MovieFits(ms[k]) {
      assert |DummyMovies[k].title| <= 23 && |DummyMovies[k].posterUrl| <= 41 && |DummyMovies[k].genre| <= 7;
    }
  }

  /** The five seeded rows are the demonstration movies with the next five
      ids, and together they satisfy the movie table's constraints. */
  lemma SeededMoviesValid(nextId: nat, now: int)
    requires 1 <= nextId
    ensures var ms := SeededMovies(nextId, now);
            && |ms| == 5
            && ms[0].title == "The Dark Knight Returns" && ms[0].genre == "Action"
            && ms[1].title == "Love in Paris" && ms[1].genre == "Romance"
            && ms[2].title == "Galaxy Warriors" && ms[2].genre == "Sci-Fi"
            && ms[3].title == "The Haunted Manor" && ms[3].genre == "Horror"
            && ms[4].title == "Comedy Night Live" && ms[4].genre == "Comedy"
            && (forall k :: 0 <= k < 5 ==> ms[k].id == nextId + k && ms[k].createdAt == now && ms[k].updatedAt == now)
            && MoviesValid(ms, nextId + 5)
  {
    var ms := SeededMovies(nextId, now);
    DummyMoviesFit(nextId, now);
    forall i, j | 0 <= i < j < |ms| ensures DistinctMovies(ms[i], ms[j]) {
      assert ms[i].id == nextId + i && ms[j].id == nextId + j;
    }
  }

  /** `seed_movies`: with any movie present, the table is left alone and
      all movies are returned in table order; otherwise the five dummy
      movies are added, in order. */
  method SeedMovies(db: Database, now: int) returns (movies: seq<Movie>)
    requires db.Valid()
    modifies db
    ensures db.Valid()
    ensures |old(db.movies)| > 0 ==> movies == old(db.movies) && db.State() == old(db.State())
    ensures |old(db.movies)| == 0 ==>
              && movies == SeededMovies(old(db.nextMovieId), now)
              && db.State() == old(db.State()).(movies := movies,
                                                nextMovieId := old(db.nextMovieId) + |DummyMovies|)
  {
    if |db.movies| > 0 {
      return db.movies;
    }
    movies := [];
    for k := 0 to |DummyMovies|
      invariant movies == SeededMovies(db.nextMovieId, now)[..k]
    {
      var movie := SeededMovie(DummyMovies[k], db.nextMovieId + k, now);
      movies := movies + [movie];
    }
    assert movies == SeededMovies(db.nextMovieId, now);
    DummyMoviesFit(db.nextMovieId, now);
    assert Pairwise(movies, DistinctMovies);
    db.movies := movies;
    db.nextMovieId := db.nextMovieId + |DummyMovies|;
  }

  // ---------------------------------------------------------------------
  // create_weekly_screenings

  const SecondsPerDay: int := 86400
  const Showtimes: seq<string> := ["10:00", "14:00", "18:00", "21:00"]
  const Prices: seq<int> := [1000, 1250, 1500, 1250]
  const WeekDays: nat := 7

  /** `map(int, t.split(":"))` on an "hh:mm" string. */
  function Clock(t: string): (nat, nat)
    requires |t| == 5 && t[2] == ':' && AllDigits(t[..2]) && AllDigits(t[3..])
  {
    (DecimalValue(t[..2]), DecimalValue(t[3..]))
  }

  lemma TwoDigits(s: string)
    requires |s| == 2 && AllDigits(s)
    ensures DecimalValue(s) == (s[0] as int - '0' as int) * 10 + (s[1] as int - '0' as int)
  {
    assert s[..|s| - 1] == s[..1] && s[..1][..0] == [] && s[..1][0] == s[0];
    assert RadixDigit(s[1], 10) == Some(s[1] as int - '0' as int);
    assert RadixDigit(s[0], 10) == Some(s[0] as int - '0' as int);
    assert DigitsValue(s[..1], 10) == s[0] as int - '0' as int;
  }

  /** The four showtimes read as 10:00, 14:00, 18:00 and 21:00. */
  lemma ShowtimeClocks()
    ensures Clock(Showtimes[0]) == (10, 0) && Clock(Showtimes[1]) == (14, 0)
    ensures Clock(Showtimes[2]) == (18, 0) && Clock(Showtimes[3]) == (21, 0)
  {
    forall k | 0 <= k < 4 ensures Clock(Showtimes[k]) == ([10, 14, 18, 21][k], 0) {
      TwoDigits(Showtimes[k][..2]);
      TwoDigits(Showtimes[k][3..]);
    }
  }

  /** Seconds after midnight of the showtime with this index. */
  function ShowtimeOffset(idx: nat): (s: int)
    requires idx < 4
    ensures s == [36000, 50400, 64800, 75600][idx]
  {
    ShowtimeClocks();
    var (hour, minute) := Clock(Showtimes[idx]);
    hour * 3600 + minute * 60
  }

  /** `datetime.replace(hour=0, minute=0, second=0, microsecond=0)`. */
  function DayStart(t: int): int {
    t - t % SecondsPerDay
  }

  /** A screening the loop wants: movie, start and price. */
  datatype Slot = Slot(movieId: nat, showDatetime: int, priceCents: int)

  /** The slot of movie number `i` on day `now + d` days: showtime and
      price both come from index (d + i) mod 4. */
  function Candidate(now: int, d: nat, movie: Movie, i: nat): Slot {
    var idx := (d + i) % |Showtimes|;
    Slot(movie.id, DayStart(now + d * SecondsPerDay) + ShowtimeOffset(idx), Prices[idx])
  }

  function DayCandidates(now: int, d: nat, movies: seq<Movie>): (r: seq<Slot>)
    ensures |r| == |movies|
  {
    seq(|movies|, i requires 0 <= i < |movies| => Candidate(now, d, movies[i], i))
  }

  /** The slots of days 1 .. days, day by day, movies in table order. */
  function WeekCandidates(now: int, movies: seq<Movie>, days: nat): seq<Slot> {
    if days == 0 then [] else WeekCandidates(now, movies, days - 1) + DayCandidates(now, days, movies)
  }

  /** Whether a screening of that movie at that instant already exists. */
  predicate Scheduled(ss: seq<Screening>, slot: Slot) {
    exists s :: s in ss && s.movieId == slot.movieId && s.showDatetime == slot.showDatetime
  }

  function Unscheduled(ss: seq<Screening>): Slot -> bool {
    (slot: Slot) => !Scheduled(ss, slot)
  }

  /** The slots the loop keeps: those without a screening yet. The session
      does not autoflush, so only rows committed before the run count. */
  function Plan(now: int, movies: seq<Movie>, existing: seq<Screening>): seq<Slot> {
    Filter(WeekCandidates(now, movies, WeekDays), Unscheduled(existing))
  }

  /** The committed rows: 100 seats, the next ids in order. */
  function Rows(plan: seq<Slot>, nextId: nat, now: int): (r: seq<Screening>)
    ensures |r| == |plan|
    ensures forall k :: 0 <= k < |r| ==>
              r[k] == Screening(nextId + k, plan[k].movieId, plan[k].showDatetime, 100, plan[k].priceCents, now)
  {
    seq(|plan|, k requires 0 <= k < |plan| =>
          Screening(nextId + k, plan[k].movieId, plan[k].showDatetime, 100, plan[k].priceCents, now))
  }

  function FutureCount(ss: seq<Screening>, now: int): nat {
    |Filter(ss, (s: Screening) => s.showDatetime > now)|
  }

  /** What one run of `create_weekly_screenings` creates. */
  function WeeklyScreenings(ss: seq<Screening>, movies: seq<Movie>, nextId: nat, now: int): seq<Screening> {
    if FutureCount(ss, now) >= 5 || movies == [] then []
    else Rows(Plan(now, movies, ss), nextId, now)
  }

  /** The two nested loops of `create_weekly_screenings`: for each day
      1 .. 7 and each movie, the slot of index (day + i) mod 4, skipped
      when that movie already has a screening at that instant. */
  method PlanWeek(now: int, movies: seq<Movie>, existing: seq<Screening>) returns (planned: seq<Slot>)
    ensures planned == Plan(now, movies, existing)
  {
    planned := [];
    for d := 1 to WeekDays + 1
      invariant planned == Filter(WeekCandidates(now, movies, d - 1), Unscheduled(existing))
    {
      PlanDayBounds(now, movies, d);
      for i := 0 to |movies|
        invariant planned == Filter(WeekCandidates(now, movies, d - 1) + DayCandidates(now, d, movies)[..i],
                                    Unscheduled(existing))
      {
        var showtimeIdx := (d + i) % |Showtimes|;
        var showDatetime := DayStart(now + d * SecondsPerDay) + ShowtimeOffset(showtimeIdx);
        var slot := Slot(movies[i].id, showDatetime, Prices[showtimeIdx]);
        assert slot == DayCandidates(now, d, movies)[i];
        PlanStep(now, movies, existing, d, i);
        if Scheduled(existing, slot) {
          continue;
        }
        planned := planned + [slot];
      }
    }
  }

  /** The inner loop starts from the previous days' slots and ends with
      the whole day added. */
  lemma PlanDayBounds(now: int, movies: seq<Movie>, d: nat)
    requires 1 <= d
    ensures WeekCandidates(now, movies, d - 1) + DayCandidates(now, d, movies)[..0] == WeekCandidates(now, movies, d - 1)
    ensures WeekCandidates(now, movies, d - 1) + DayCandidates(now, d, movies)[..|movies|] == WeekCandidates(now, movies, d)
  {
    assert DayCandidates(now, d, movies)[..|movies|] == DayCandidates(now, d, movies);
  }

  /** One step of the inner loop keeps the slot exactly when it is unscheduled. */
  lemma PlanStep(now: int, movies: seq<Movie>, existing: seq<Screening>, d: nat, i: nat)
    requires 1 <= d && i < |movies|
    ensures var day := DayCandidates(now, d, movies);
            Filter(WeekCandidates(now, movies, d - 1) + day[..i + 1], Unscheduled(existing)) ==
            Filter(WeekCandidates(now, movies, d - 1) + day[..i], Unscheduled(existing)) +
            (if Scheduled(existing, day[i]) then [] else [day[i]])
  {
    FilterExtend(WeekCandidates(now, movies, d - 1), DayCandidates(now, d, movies), i, Unscheduled(existing));
  }

  /** `create_weekly_screenings` at instant `now`. */
  method CreateWeeklyScreenings(db: Database, now: int) returns (created: seq<Screening>)
    requires db.Valid()
    modifies db
    ensures db.Valid()
    ensures created == WeeklyScreenings(old(db.screenings), old(db.movies), old(db.nextScreeningId), now)
    ensures db.State() == old(db.State()).(screenings := old(db.screenings) + created,
                                           nextScreeningId := old(db.nextScreeningId) + |created|)
  {
    var futureScreenings := FutureCount(db.screenings, now);
    if futureScreenings >= 5 {
      return [];
    }
    var movies := db.movies;
    if movies == [] {
      return [];
    }
    var planned := PlanWeek(now, movies, db.screenings);
    created := Rows(planned, db.nextScreeningId, now);
    CommitKeepsValid(db.State(), now, created);
    db.screenings := db.screenings + created;
    db.nextScreeningId := db.nextScreeningId + |created|;
  }

  // ---------------------------------------------------------------------
  // Properties of the plan

  lemma {:induction false} WeekLength(now: int, movies: seq<Movie>, days: nat)
    ensures |WeekCandidates(now, movies, days)| == days * |movies|
  {
    if days > 0 {
      WeekLength(now, movies, days - 1);
    }
  }

  /** A run creates at most one screening per movie and day of the week
      ahead: no more than 7 times the number of movies in all. */
  lemma PlanBound(now: int, movies: seq<Movie>, existing: seq<Screening>, nextId: nat)
    ensures |WeeklyScreenings(existing, movies, nextId, now)| <= WeekDays * |movies|
  {
    WeekLength(now, movies, WeekDays);
  }

  function SlotOfMovie(movieId: nat): Slot -> bool {
    (slot: Slot) => slot.movieId == movieId
  }

  function ScreeningOfMovie(movieId: nat): Screening -> bool {
    (s: Screening) => s.movieId == movieId
  }

  /** With distinct movie ids a day offers each movie at most once. */
  lemma DayShowings(now: int, d: nat, movies: seq<Movie>, movieId: nat)
    requires Pairwise(movies, DistinctMovies)
    ensures |Filter(DayCandidates(now, d, movies), SlotOfMovie(movieId))| <= 1
  {
    var day := DayCandidates(now, d, movies);
    forall i, j | 0 <= i < j < |day| && SlotOfMovie(movieId)(day[i]) ensures !SlotOfMovie(movieId)(day[j]) {
      assert DistinctMovies(movies[i], movies[j]);
    }
    FilterAtMostOne(day, SlotOfMovie(movieId));
  }

  lemma {:induction false} WeekShowings(now: int, movies: seq<Movie>, days: nat, movieId: nat)
    requires Pairwise(movies, DistinctMovies)
    ensures |Filter(WeekCandidates(now, movies, days), SlotOfMovie(movieId))| <= days
  {
    if days > 0 {
      WeekShowings(now, movies, days - 1, movieId);
      DayShowings(now, days, movies, movieId);
      FilterConcat(WeekCandidates(now, movies, days - 1), DayCandidates(now, days, movies), SlotOfMovie(movieId));
    }
  }

  /** A run creates at most 7 screenings of any one movie (see also
      `OneShowingPerDay`). */
  lemma MovieShowingsBound(existing: seq<Screening>, movies: seq<Movie>, nextId: nat, now: int, movieId: nat)
    requires Pairwise(movies, DistinctMovies)
    ensures |Filter(WeeklyScreenings(existing, movies, nextId, now), ScreeningOfMovie(movieId))| <= WeekDays
  {
    if FutureCount(existing, now) < 5 && movies != [] {
      var plan := Plan(now, movies, existing);
      FilterCountsAlong(Rows(plan, nextId, now), plan, ScreeningOfMovie(movieId), SlotOfMovie(movieId));
      FilterFilterLength(WeekCandidates(now, movies, WeekDays), Unscheduled(existing), SlotOfMovie(movieId));
      WeekShowings(now, movies, WeekDays, movieId);
    }
  }

  /** Every slot of the week is the slot of some day 1 .. days and some movie. */
  lemma {:induction false} WeekSlotOrigin(now: int, movies: seq<Movie>, days: nat, slot: Slot)
    requires slot in WeekCandidates(now, movies, days)
    ensures exists d, i :: 1 <= d <= days && 0 <= i < |movies| && slot == Candidate(now, d, movies[i], i)
  {
    if slot in WeekCandidates(now, movies, days - 1) {
      WeekSlotOrigin(now, movies, days - 1, slot);
    } else {
      var day := DayCandidates(now, days, movies);
      var i :| 0 <= i < |day| && day[i] == slot;
      assert slot == Candidate(now, days, movies[i], i);
    }
  }

  /** A slot of day d starts at one of the four showtimes of that day,
      has zero seconds, lies in the future and carries the price of its
      showtime: 10:00 costs 10.00, 14:00 12.50, 18:00 15.00, 21:00 12.50. */
  lemma CandidateShape(now: int, d: nat, movie: Movie, i: nat)
    requires 1 <= d
    ensures var slot := Candidate(now, d, movie, i);
            var offset := slot.showDatetime - (DayStart(now) + d * SecondsPerDay);
            && slot.movieId == movie.id
            && slot.showDatetime > now && slot.showDatetime % 60 == 0
            && ((offset == 36000 && slot.priceCents == 1000) || (offset == 50400 && slot.priceCents == 1250)
                || (offset == 64800 && slot.priceCents == 1500) || (offset == 75600 && slot.priceCents == 1250))
  {
    var idx := (d + i) % 4;
    DayStartShift(now, d);
    ShowtimeSlot(idx);
    var q := now / SecondsPerDay;
    assert DayStart(now) + d * SecondsPerDay == (q + d) * SecondsPerDay;
    WholeMinutes(q + d, ShowtimeOffset(idx));
  }

  /** Each showtime lies within its day, on a whole minute, at its price. */
  lemma ShowtimeSlot(idx: nat)
    requires idx < 4
    ensures var offset := ShowtimeOffset(idx);
            && 0 < offset < SecondsPerDay && offset % 60 == 0
            && ((offset == 36000 && Prices[idx] == 1000) || (offset == 50400 && Prices[idx] == 1250)
                || (offset == 64800 && Prices[idx] == 1500) || (offset == 75600 && Prices[idx] == 1250))
  {
  }

  lemma WholeMinutes(days: int, offset: int)
    requires offset % 60 == 0
    ensures (days * SecondsPerDay + offset) % 60 == 0
  {
    assert days * SecondsPerDay + offset == (days * 1440 + offset / 60) * 60;
  }

  /** Moving by whole days moves the start of the day with it. */
  lemma DayStartShift(now: int, d: nat)
    ensures DayStart(now + d * SecondsPerDay) == DayStart(now) + d * SecondsPerDay
    ensures now - SecondsPerDay < DayStart(now) <= now
  {
    assert (now + d * SecondsPerDay) % SecondsPerDay == now % SecondsPerDay;
  }

  /** Every created screening lies in the future, has zero seconds, 100
      seats and the price of its showtime, and is for a listed movie. */
  lemma CreatedShape(existing: seq<Screening>, movies: seq<Movie>, nextId: nat, now: int, s: Screening)
    requires s in WeeklyScreenings(existing, movies, nextId, now)
    ensures s.totalSeats == 100 && s.createdAt == now
    ensures s.showDatetime > now && s.showDatetime % 60 == 0
    ensures exists m :: m in movies && m.id == s.movieId
    ensures s.priceCents in Prices
  {
    var plan := Plan(now, movies, existing);
    var rows := Rows(plan, nextId, now);
    var k :| 0 <= k < |rows| && rows[k] == s;
    assert plan[k] in plan;
    WeekSlotOrigin(now, movies, WeekDays, plan[k]);
    var d, i :| 1 <= d <= WeekDays && 0 <= i < |movies| && plan[k] == Candidate(now, d, movies[i], i);
    CandidateShape(now, d, movies[i], i);
    assert movies[i] in movies;
  }

  predicate DifferentSlot(a: Slot, b: Slot) {
    a.movieId != b.movieId || a.showDatetime != b.showDatetime
  }

  /** The slots of day d lie within that day. */
  lemma DaySlotsWithin(now: int, d: nat, movies: seq<Movie>, slot: Slot)
    requires 1 <= d && slot in DayCandidates(now, d, movies)
    ensures DayStart(now) + d * SecondsPerDay <= slot.showDatetime < DayStart(now) + (d + 1) * SecondsPerDay
  {
    var day := DayCandidates(now, d, movies);
    var i :| 0 <= i < |day| && day[i] == slot;
    DayStartShift(now, d);
    assert ShowtimeOffset((d + i) % 4) < SecondsPerDay;
  }

  lemma {:induction false} WeekSlotsBefore(now: int, movies: seq<Movie>, days: nat, slot: Slot)
    requires slot in WeekCandidates(now, movies, days)
    ensures slot.showDatetime < DayStart(now) + (days + 1) * SecondsPerDay
  {
    if slot in WeekCandidates(now, movies, days - 1) {
      WeekSlotsBefore(now, movies, days - 1, slot);
    } else {
      DaySlotsWithin(now, days, movies, slot);
    }
  }

  /** With distinct movie ids no (movie, start) pair is planned twice. */
  lemma {:induction false} WeekDistinct(now: int, movies: seq<Movie>, days: nat)
    requires Pairwise(movies, DistinctMovies)
    ensures Pairwise(WeekCandidates(now, movies, days), DifferentSlot)
  {
    if days > 0 {
      var earlier := WeekCandidates(now, movies, days - 1);
      var day := DayCandidates(now, days, movies);
      WeekDistinct(now, movies, days - 1);
      forall p, q | 0 <= p < q < |day| ensures DifferentSlot(day[p], day[q]) {
        assert DistinctMovies(movies[p], movies[q]);
      }
      forall p, q | 0 <= p < |earlier| && 0 <= q < |day| ensures DifferentSlot(earlier[p], day[q]) {
        assert earlier[p] in earlier && day[q] in day;
        WeekSlotsBefore(now, movies, days - 1, earlier[p]);
        DaySlotsWithin(now, days, movies, day[q]);
      }
      PairwiseConcat(earlier, day, DifferentSlot);
    }
  }

  /** Two slots of different movies, or on different calendar days (UTC). */
  predicate DifferentDay(a: Slot, b: Slot) {
    a.movieId != b.movieId || DayStart(a.showDatetime) != DayStart(b.showDatetime)
  }

  /** A day boundary between two instants puts them on different days. */
  lemma DayBoundary(now: int, d: nat, a: int, b: int)
    requires a < DayStart(now) + d * SecondsPerDay <= b
    ensures DayStart(a) < DayStart(b)
  {
    var p := now / SecondsPerDay;
    assert DayStart(now) == p * SecondsPerDay;
    assert (p + d) * SecondsPerDay <= b;
    assert b / SecondsPerDay >= p + d;
    assert DayStart(b) == (b / SecondsPerDay) * SecondsPerDay;
    assert DayStart(a) <= a;
  }

  /** With distinct movie ids no movie is offered twice on one day. */
  lemma {:induction false} WeekDistinctDays(now: int, movies: seq<Movie>, days: nat)
    requires Pairwise(movies, DistinctMovies)
    ensures Pairwise(WeekCandidates(now, movies, days), DifferentDay)
  {
    if days > 0 {
      var earlier := WeekCandidates(now, movies, days - 1);
      var day := DayCandidates(now, days, movies);
      WeekDistinctDays(now, movies, days - 1);
      forall p, q | 0 <= p < q < |day| ensures DifferentDay(day[p], day[q]) {
        assert DistinctMovies(movies[p], movies[q]);
      }
      forall p, q | 0 <= p < |earlier| && 0 <= q < |day| ensures DifferentDay(earlier[p], day[q]) {
        assert earlier[p] in earlier && day[q] in day;
        WeekSlotsBefore(now, movies, days - 1, earlier[p]);
        DaySlotsWithin(now, days, movies, day[q]);
        DayBoundary(now, days, earlier[p].showDatetime, day[q].showDatetime);
      }
      PairwiseConcat(earlier, day, DifferentDay);
    }
  }

  /** One showtime per movie and day: no two screenings a run creates show
      the same movie on the same calendar day. */
  lemma OneShowingPerDay(existing: seq<Screening>, movies: seq<Movie>, nextId: nat, now: int)
    requires Pairwise(movies, DistinctMovies)
    ensures var created := WeeklyScreenings(existing, movies, nextId, now);
            forall p, q :: 0 <= p < q < |created| && created[p].movieId == created[q].movieId ==>
              DayStart(created[p].showDatetime) != DayStart(created[q].showDatetime)
  {
    if FutureCount(existing, now) < 5 && movies != [] {
      var plan := Plan(now, movies, existing);
      WeekDistinctDays(now, movies, WeekDays);
      FilterPairwise(WeekCandidates(now, movies, WeekDays), Unscheduled(existing), DifferentDay);
      assert Pairwise(plan, DifferentDay);
      var created := Rows(plan, nextId, now);
      forall p, q | 0 <= p < q < |created| && created[p].movieId == created[q].movieId
        ensures DayStart(created[p].showDatetime) != DayStart(created[q].showDatetime)
      {
        assert DifferentDay(plan[p], plan[q]);
      }
    }
  }

  lemma PlanDistinct(now: int, movies: seq<Movie>, existing: seq<Screening>)
    requires Pairwise(movies, DistinctMovies)
    ensures Pairwise(Plan(now, movies, existing), DifferentSlot)
  {
    WeekDistinct(now, movies, WeekDays);
    FilterPairwise(WeekCandidates(now, movies, WeekDays), Unscheduled(existing), DifferentSlot);
  }

  /** A second run at the same instant creates nothing: every slot of
      the week is then scheduled, or the five-future-screenings guard
      already stops the run. */
  lemma SecondRunAddsNothing(existing: seq<Screening>, movies: seq<Movie>, nextId: nat, nextId2: nat, now: int)
    ensures var first := WeeklyScreenings(existing, movies, nextId, now);
            WeeklyScreenings(existing + first, movies, nextId2, now) == []
  {
    var first := WeeklyScreenings(existing, movies, nextId, now);
    if first != [] && FutureCount(existing + first, now) < 5 {
      var plan := Plan(now, movies, existing);
      var week := WeekCandidates(now, movies, WeekDays);
      var after := existing + first;
      forall k | 0 <= k < |week| ensures !Unscheduled(after)(week[k]) {
        var slot := week[k];
        if !Scheduled(existing, slot) {
          assert slot in plan;
          var j :| 0 <= j < |plan| && plan[j] == slot;
          assert first[j] in after;
        } else {
          var s :| s in existing && s.movieId == slot.movieId && s.showDatetime == slot.showDatetime;
          assert s in after;
        }
      }
      FilterDropsAll(week, Unscheduled(after));
    } else if first == [] {
      assert existing + first == existing;
    }
  }

  /** The commit keeps every table invariant: fresh distinct ids, 100
      seats, prices within Numeric(10, 2), movies that exist. */
  lemma CommitKeepsValid(t: Tables, now: int, created: seq<Screening>)
    requires TablesValid(t)
    requires created == WeeklyScreenings(t.screenings, t.movies, t.nextScreeningId, now)
    ensures TablesValid(t.(screenings := t.screenings + created, nextScreeningId := t.nextScreeningId + |created|))
  {
    forall s | s in created
      ensures t.nextScreeningId <= s.id < t.nextScreeningId + |created|
      ensures ScreeningFits(s) && s.movieId in MovieIds(t.movies)
    {
      CreatedShape(t.screenings, t.movies, t.nextScreeningId, now, s);
    }
    forall p, q | 0 <= p < q < |created| ensures DistinctScreenings(created[p], created[q]) {
    }
    forall p, q | 0 <= p < |t.screenings| && 0 <= q < |created|
      ensures DistinctScreenings(t.screenings[p], created[q])
    {
      assert t.screenings[p] in t.screenings && created[q] in created;
    }
    PairwiseConcat(t.screenings, created, DistinctScreenings);
    var all := t.screenings + created;
    assert ScreeningIds(t.screenings) <= ScreeningIds(all);
  }
}
