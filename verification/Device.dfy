/** The hardware watchdog behind /dev/watchdog, as a log of the calls made on it. */
module Device {
  import opened Clock

  datatype Op =
    | Open(at: Time)
    | SetTimeout(seconds: int, at: Time)
    | Write(c: char, at: Time)
    | Disable(at: Time)
    | Close(at: Time)

  /** `expectClose` is the magic-close flag: the last byte written was 'V'. */
  datatype Watchdog = Watchdog(armed: bool, timeout: int, kicked: Time, expectClose: bool)

  function Apply(d: Watchdog, op: Op): Watchdog {
    match op
    case Open(at) => d.(armed := true, kicked := at)
    case SetTimeout(s, at) => d.(timeout := s, kicked := at)
    case Write(c, at) => d.(kicked := at, expectClose := c == 'V')
    case Disable(_) => d.(armed := false)
    case Close(_) => d.(armed := d.armed && !d.expectClose, expectClose := false)
  }

  /** The device after a log of calls. */
  function After(ops: seq<Op>): Watchdog {
    if ops == [] then Watchdog(false, 0, Timespec(0, 0), false)
    else Apply(After(ops[..|ops| - 1]), ops[|ops| - 1])
  }

  lemma AfterAppend(ops: seq<Op>, op: Op)
    ensures After(ops + [op]) == Apply(After(ops), op)
  {
    assert (ops + [op])[..|ops|] == ops;
  }

  /** The instant at which an armed device resets the system unless it is written before. */
  function FireTime(d: Watchdog): int {
    Ns(d.kicked) + d.timeout * NS_PER_SEC
  }
}
