/** Instants: an instant is an integer count of nanoseconds since the Unix
    epoch, and converting to UTC does not change it. time.Unix(s, 0) and
    t.Unix() convert between instants and whole Unix seconds. */
module Instants {

  const NanosPerSecond: int := 1_000_000_000

  /** time.Unix(s, 0): the instant s whole seconds after the epoch. */
  function FromUnix(s: int): (t: int)
    ensures Unix(t) == s
  {
    s * NanosPerSecond
  }

  /** t.Unix(): the whole seconds of an instant. */
  function Unix(t: int): int
  {
    t / NanosPerSecond
  }

  /** Unix rounds down, before the epoch as after it. */
  lemma UnixFloor(t: int)
    ensures Unix(t) * NanosPerSecond <= t < (Unix(t) + 1) * NanosPerSecond
  {
  }

  /** Comparing an instant with a whole second is comparing its Unix seconds
      with that second: time.Unix(s, 0) is not after t exactly when s is not
      after t.Unix(), and t is before time.Unix(s, 0) exactly when t.Unix()
      is before s. */
  lemma {:induction false} CompareWithSeconds(t: int, s: int)
    ensures FromUnix(s) <= t <==> s <= Unix(t)
    ensures t < FromUnix(s) <==> Unix(t) < s
  {
    UnixFloor(t);
    var u := Unix(t);
    if s <= u {
      assert s * NanosPerSecond <= u * NanosPerSecond;
    } else {
      assert (u + 1) * NanosPerSecond <= s * NanosPerSecond;
    }
  }
}
