/** Time as the stores use it: instants are nanoseconds on one axis, and a timestamp
    string is either one that parses to an instant or one that does not. */
module Clock {
  const SECOND := 1_000_000_000
  const MINUTE := 60 * SECOND
  const DAY := 24 * 60 * MINUTE

  datatype Stamp = At(t: int) | Garbled(text: string)

  function Abs(n: int): nat { if n < 0 then -n else n }

  /** time.Now().UTC().AddDate(0, 0, -days): UTC days are of equal length. */
  function Cutoff(now: int, days: int): int { now - days * DAY }
}
