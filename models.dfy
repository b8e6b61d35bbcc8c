/** The four tables of backend/app/models/user.py, their column defaults,
    and their CHECK, UNIQUE, NOT NULL, length and foreign-key constraints,
    stated as predicates over rows and tables. */
module Models {
  import opened Wrappers
  import opened Seqs

  /** `role`: CHECK role IN ('user', 'admin'). */
  datatype Role = UserRole | AdminRole

  function RoleName(r: Role): string {
    match r
    case UserRole => "user"
    case AdminRole => "admin"
  }

  /** The value of a role column given as text, `None` where the CHECK
      constraint `valid_role` refuses it. */
  function ParseRole(s: string): (r: Option<Role>)
    ensures r.Some? <==> s == "user" || s == "admin"
    ensures r.Some? ==> RoleName(r.value) == s
  {
    if s == "user" then Some(UserRole) else if s == "admin" then Some(AdminRole) else None
  }

  /** `status`: CHECK status IN ('active', 'cancelled'). */
  datatype Status = Active | Cancelled

  /** Instants are integer seconds; prices are integer cents. */
  datatype User = User(id: nat, email: string, passwordHash: string, role: Role, createdAt: int)

  datatype Movie = Movie(
    id: nat, title: string, description: string, posterUrl: string, genre: string,
    createdAt: int, updatedAt: int)

  datatype Screening = Screening(
    id: nat, movieId: nat, showDatetime: int, totalSeats: int, priceCents: int, createdAt: int)

  datatype Reservation = Reservation(
    id: nat, screeningId: nat, userId: nat, seatNumber: string, status: Status,
    createdAt: int, cancelledAt: Option<int>)

  // Column defaults.
  const DefaultRole: Role := UserRole
  const DefaultTotalSeats: int := 100
  const DefaultPriceCents: int := 1000
  const DefaultStatus: Status := Active

  // Column widths: String(n) and Integer (32-bit), Numeric(10, 2).
  const EmailWidth: nat := 255
  const PasswordHashWidth: nat := 255
  const TitleWidth: nat := 255
  const PosterUrlWidth: nat := 500
  const GenreWidth: nat := 50
  const SeatNumberWidth: nat := 10
  const MaxInteger: int := 0x7FFF_FFFF
  /** Numeric(10, 2) holds at most 8 digits before the point. */
  const PriceBoundCents: int := 10_000_000_000

  predicate UserFits(u: User) {
    |u.email| <= EmailWidth && |u.passwordHash| <= PasswordHashWidth
  }

  predicate MovieFits(m: Movie) {
    |m.title| <= TitleWidth && |m.posterUrl| <= PosterUrlWidth && |m.genre| <= GenreWidth
  }

  /** CHECK total_seats > 0, plus the Integer and Numeric(10, 2) ranges. */
  predicate ScreeningFits(s: Screening) {
    0 < s.totalSeats <= MaxInteger && -PriceBoundCents < s.priceCents < PriceBoundCents
  }

  predicate ReservationFits(r: Reservation) {
    |r.seatNumber| <= SeatNumberWidth
  }

  function UserIds(us: seq<User>): set<nat> {
    set u | u in us :: u.id
  }

  function MovieIds(ms: seq<Movie>): set<nat> {
    set m | m in ms :: m.id
  }

  function ScreeningIds(ss: seq<Screening>): set<nat> {
    set s | s in ss :: s.id
  }

  predicate DistinctUsers(a: User, b: User) {
    a.id != b.id && a.email != b.email
  }

  predicate DistinctMovies(a: Movie, b: Movie) {
    a.id != b.id
  }

  predicate DistinctScreenings(a: Screening, b: Screening) {
    a.id != b.id
  }

  predicate DistinctReservations(a: Reservation, b: Reservation) {
    a.id != b.id
  }

  /** Primary keys are positive, below the table's next id, and distinct;
      `email` is UNIQUE. */
  predicate UsersValid(us: seq<User>, nextId: nat) {
    && (forall u :: u in us ==> 1 <= u.id < nextId && UserFits(u))
    && Pairwise(us, DistinctUsers)
  }

  predicate MoviesValid(ms: seq<Movie>, nextId: nat) {
    && (forall m :: m in ms ==> 1 <= m.id < nextId && MovieFits(m))
    && Pairwise(ms, DistinctMovies)
  }

  /** `movie_id` references an existing movie. */
  predicate ScreeningsValid(ss: seq<Screening>, nextId: nat, ms: seq<Movie>) {
    && (forall s :: s in ss ==> 1 <= s.id < nextId && ScreeningFits(s) && s.movieId in MovieIds(ms))
    && Pairwise(ss, DistinctScreenings)
  }

  predicate SameSeat(a: Reservation, b: Reservation) {
    a.screeningId == b.screeningId && a.seatNumber == b.seatNumber
  }

  predicate NotBothActiveOnSeat(a: Reservation, b: Reservation) {
    !(a.status == Active && b.status == Active && SameSeat(a, b))
  }

  /** The rule the booking code maintains: at most one active reservation
      per (screening_id, seat_number). */
  predicate AtMostOneActive(rs: seq<Reservation>) {
    Pairwise(rs, NotBothActiveOnSeat)
  }

  predicate NotSameSeatAndStatus(a: Reservation, b: Reservation) {
    !(SameSeat(a, b) && a.status == b.status)
  }

  /** The constraint as declared: UNIQUE (screening_id, seat_number, status),
      which also forbids two cancelled rows for one seat. */
  predicate UniqueSeatStatus(rs: seq<Reservation>) {
    Pairwise(rs, NotSameSeatAndStatus)
  }

  /** `screening_id` and `user_id` reference existing rows, and
      `cancelled_at` is set exactly on the cancelled rows. */
  predicate ReservationsValid(rs: seq<Reservation>, nextId: nat, ss: seq<Screening>, us: seq<User>) {
    && (forall r :: r in rs ==>
          && 1 <= r.id < nextId && ReservationFits(r)
          && r.screeningId in ScreeningIds(ss) && r.userId in UserIds(us)
          && (r.cancelledAt.Some? <==> r.status == Cancelled))
    && Pairwise(rs, DistinctReservations)
    && AtMostOneActive(rs)
  }

  // Lookups: `db.query(T).filter(...).first()` returns the first matching
  // row in table order.

  function FindUser(us: seq<User>, id: nat): (r: Option<User>)
    ensures r.Some? <==> id in UserIds(us)
    ensures r.Some? ==> r.value in us && r.value.id == id
  {
    if us == [] then None
    else if us[0].id == id then Some(us[0])
    else
      assert UserIds(us) == {us[0].id} + UserIds(us[1..]);
      FindUser(us[1..], id)
  }

  function FindUserByEmail(us: seq<User>, email: string): (r: Option<User>)
    ensures r.Some? <==> exists u :: u in us && u.email == email
    ensures r.Some? ==> r.value in us && r.value.email == email
  {
    if us == [] then None
    else if us[0].email == email then Some(us[0])
    else FindUserByEmail(us[1..], email)
  }

  function FindMovie(ms: seq<Movie>, id: nat): (r: Option<Movie>)
    ensures r.Some? <==> id in MovieIds(ms)
    ensures r.Some? ==> r.value in ms && r.value.id == id
  {
    if ms == [] then None
    else if ms[0].id == id then Some(ms[0])
    else
      assert MovieIds(ms) == {ms[0].id} + MovieIds(ms[1..]);
      FindMovie(ms[1..], id)
  }

  function FindScreening(ss: seq<Screening>, id: nat): (r: Option<Screening>)
    ensures r.Some? <==> id in ScreeningIds(ss)
    ensures r.Some? ==> r.value in ss && r.value.id == id
  {
    if ss == [] then None
    else if ss[0].id == id then Some(ss[0])
    else
      assert ScreeningIds(ss) == {ss[0].id} + ScreeningIds(ss[1..]);
      FindScreening(ss[1..], id)
  }

  /** The content of all four tables and their id sequences. */
  datatype Tables = Tables(
    users: seq<User>, movies: seq<Movie>, screenings: seq<Screening>, reservations: seq<Reservation>,
    nextUserId: nat, nextMovieId: nat, nextScreeningId: nat, nextReservationId: nat)

  predicate TablesValid(t: Tables) {
    && 1 <= t.nextUserId && 1 <= t.nextMovieId && 1 <= t.nextScreeningId && 1 <= t.nextReservationId
    && UsersValid(t.users, t.nextUserId)
    && MoviesValid(t.movies, t.nextMovieId)
    && ScreeningsValid(t.screenings, t.nextScreeningId, t.movies)
    && ReservationsValid(t.reservations, t.nextReservationId, t.screenings, t.users)
  }

  /** The database as the request handlers see it through their session:
      every table is a sequence of rows in insertion order, and each table's
      id sequence hands out the next primary key. */
  class Database {
    var users: seq<User>
    var movies: seq<Movie>
    var screenings: seq<Screening>
    var reservations: seq<Reservation>
    var nextUserId: nat
    var nextMovieId: nat
    var nextScreeningId: nat
    var nextReservationId: nat

    function State(): Tables
      reads this
    {
      Tables(users, movies, screenings, reservations,
             nextUserId, nextMovieId, nextScreeningId, nextReservationId)
    }

    ghost predicate Valid()
      reads this
    {
      TablesValid(State())
    }

    /** A freshly created schema: empty tables, id sequences starting at 1. */
    constructor ()
      ensures Valid()
      ensures State() == Tables([], [], [], [], 1, 1, 1, 1)
    {
      users, movies, screenings, reservations := [], [], [], [];
      nextUserId, nextMovieId, nextScreeningId, nextReservationId := 1, 1, 1, 1;
    }
  }
}
