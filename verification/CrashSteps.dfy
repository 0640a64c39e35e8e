/** Operations on durable storage that may lose power before any write. */
module CrashSteps {
  /** The power lasts for ever or for a number of further durable writes. */
  datatype Power = Steady | Left(writes: nat)

  datatype Powered<D> = Machine(disk: D, power: Power)

  datatype Why<R> = Crashed | Refused(reason: R)

  /** How far one operation got, and why it stopped. */
  datatype Progress<D, R> = Go(m: Powered<D>) | Stop(m: Powered<D>, why: Why<R>) {
    predicate IsFailure() {
      Stop?
    }

    function PropagateFailure(): Progress<D, R>
      requires Stop?
    {
      this
    }

    function Extract(): Powered<D>
      requires Go?
    {
      m
    }
  }

  /** One atomic durable write: the power may fail before it, never inside it. */
  function Write<D, R>(m: Powered<D>, d: D): Progress<D, R> {
    match m.power
    case Steady => Go(m.(disk := d))
    case Left(n) => if n == 0 then Stop(m, Crashed) else Go(Machine(d, Left(n - 1)))
  }

  function Check<D, R>(m: Powered<D>, ok: bool, reason: R): Progress<D, R> {
    if ok then Go(m) else Stop(m, Refused(reason))
  }

  /** What a method performing an operation in place returns. */
  datatype Outcome<R> = Done | Failed(why: Why<R>) {
    predicate IsFailure() {
      Failed?
    }

    function PropagateFailure(): Outcome<R>
      requires Failed?
    {
      this
    }
  }

  ghost function Reached<D, R>(m: Powered<D>, o: Outcome<R>): Progress<D, R> {
    if o.Done? then Go(m) else Stop(m, o.why)
  }

  /** Lets the next write happen, or reports the crash before it. */
  method Spend<R>(power: Power) returns (o: Outcome<R>, left: Power)
    ensures o == if power == Left(0) then Failed(Crashed) else Done
    ensures left == if power.Left? && power.writes > 0 then Left(power.writes - 1) else power
  {
    left := power;
    match power {
      case Steady =>
      case Left(n) =>
        if n == 0 {
          return Failed(Crashed), left;
        }
        left := Left(n - 1);
    }
    o := Done;
  }

  function Require<R>(ok: bool, reason: R): Outcome<R> {
    if ok then Done else Failed(Refused(reason))
  }
}
