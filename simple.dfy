/**
 * The migration unit: `SimpleMigration` of simple.go and pgx/simple.go.
 *
 * A migration is a name, a creation date and two optional increments.  Go's
 * `Migration` interface has this struct as its one implementation; since an
 * increment here may be any function of the transaction's schema, every
 * implementation of the interface behaves like some `SimpleMigration`.
 */
module Simple {
  import opened Wrappers

  /** What an increment does to the schema of the transaction it runs in. */
  datatype Effect<S> = Applied(schema: S) | Failed(cause: string)

  /** An increment: run against the working schema of a transaction. */
  type Increment<!S> = S -> Effect<S>

  /**
   * `name` is a Go string (each char stands for one byte), `date` is the
   * creation time in nanoseconds since the Unix epoch, and an absent
   * increment is Go's nil function.
   */
  datatype SimpleMigration<!S> = SimpleMigration(
    name: string,
    date: int,
    up: Option<Increment<S>>,
    down: Option<Increment<S>>)

  /** Builds a migration; its fields are never changed afterwards. */
  function NewSimpleMigration<S>(name: string, date: int, up: Option<Increment<S>>, down: Option<Increment<S>>)
    : (m: SimpleMigration<S>)
    ensures Name(m) == name && Date(m) == date
    ensures m.up == up && m.down == down
  {
    SimpleMigration(name, date, up, down)
  }

  /** Runs the up increment; an unset increment succeeds and changes nothing. */
  function Up<S>(m: SimpleMigration<S>, schema: S): (r: Effect<S>)
    ensures m.up.None? ==> r == Applied(schema)
    ensures m.up.Some? ==> r == m.up.value(schema)
  {
    match m.up
    case Some(inc) => inc(schema)
    case None => Applied(schema)
  }

  /** Runs the down increment; an unset increment succeeds and changes nothing. */
  function Down<S>(m: SimpleMigration<S>, schema: S): (r: Effect<S>)
    ensures m.down.None? ==> r == Applied(schema)
    ensures m.down.Some? ==> r == m.down.value(schema)
  {
    match m.down
    case Some(inc) => inc(schema)
    case None => Applied(schema)
  }

  /** The creation date, in nanoseconds since the epoch. */
  function Date<S>(m: SimpleMigration<S>): int {
    m.date
  }

  /** The human-readable name. */
  function Name<S>(m: SimpleMigration<S>): string {
    m.name
  }
}
