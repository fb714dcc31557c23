/** How `stp_tick` turns milliseconds into timer ticks, 256 to the second, and what it carries
    over from one call to the next. */
module StpTime {
  import opened StpModel

  const INT_MAX: int := 0x7fff_ffff

  /** The milliseconds one call passes on. */
  function Granted(ms: int): nat { Clamp(ms, 0, INT_MAX - 1000) }

  /** The ticks of a call that finds `carried` left over. */
  function TicksOf(ms: int, carried: nat): nat { MsToTimer(Granted(ms) + carried) }

  /** What the call leaves over in turn. */
  function Leftover(ms: int, carried: nat): (r: nat)
    ensures r < 1000
  {
    (Granted(ms) + carried) * 0x100 % 1000
  }

  /** What is left over after a history of calls on a new bridge. */
  function Carried(calls: seq<int>): (r: nat)
    ensures r < 1000
  {
    if calls == [] then 0 else Leftover(calls[|calls| - 1], Carried(calls[..|calls| - 1]))
  }

  /** The ticks the bridge is given over the history. */
  function Given(calls: seq<int>): nat {
    if calls == [] then 0
    else Given(calls[..|calls| - 1]) + TicksOf(calls[|calls| - 1], Carried(calls[..|calls| - 1]))
  }

  function Milliseconds(calls: seq<int>): nat {
    if calls == [] then 0 else Milliseconds(calls[..|calls| - 1]) + Granted(calls[|calls| - 1])
  }

  /** All that calls have found left over. */
  function CarriedIn(calls: seq<int>): nat {
    if calls == [] then 0 else CarriedIn(calls[..|calls| - 1]) + Carried(calls[..|calls| - 1])
  }

  lemma OneCall(ms: int, carried: nat)
    ensures 1000 * TicksOf(ms, carried) + Leftover(ms, carried) == 0x100 * (Granted(ms) + carried)
  {
    var x := (Granted(ms) + carried) * 0x100;
    assert x == 1000 * (x / 1000) + x % 1000;
  }

  /** The left-over of a call is in parts of a tick, but the next takes it for milliseconds,
      256 times as much. */
  lemma {:induction false} ClockLaw(calls: seq<int>)
    ensures 1000 * Given(calls) + Carried(calls) == 0x100 * Milliseconds(calls) + 0xff * CarriedIn(calls)
  {
    if calls != [] {
      ClockLaw(calls[..|calls| - 1]);
      OneCall(calls[|calls| - 1], Carried(calls[..|calls| - 1]));
    }
  }

  lemma LeftoverParts(x: nat)
    ensures x * 0x100 % 1000 % 8 == 0 && (x * 0x100 % 1000 == 0 <==> x % 125 == 0)
  {
    var q, r := x / 125, x % 125;
    assert x == 125 * q + r;
    assert x * 0x100 == 1000 * (32 * q) + r * 0x100;
    ModAdds(32 * q, r * 0x100);
  }

  lemma ModAdds(q: nat, y: nat)
    ensures (1000 * q + y) % 1000 == y % 1000
  {
  }

  /** Every call but the last passes a multiple of an eighth of a second. */
  predicate InEighths(calls: seq<int>) {
    forall k :: 0 <= k < |calls| - 1 ==> Granted(calls[k]) % 125 == 0
  }

  lemma CarriedNothing(ms: int)
    ensures Leftover(ms, 0) == 0 <==> Granted(ms) % 125 == 0
  {
    LeftoverParts(Granted(ms));
  }

  lemma CarriedEights(calls: seq<int>)
    ensures Carried(calls) % 8 == 0
  {
    if calls != [] { LeftoverParts(Granted(calls[|calls| - 1]) + Carried(calls[..|calls| - 1])); }
  }

  /** Nothing was ever carried into a call, and the last call leaves nothing over, exactly when
      every call passes a multiple of an eighth of a second. */
  lemma {:induction false} NothingCarried(calls: seq<int>)
    ensures CarriedIn(calls) == 0 <==> InEighths(calls)
    ensures CarriedIn(calls) == 0 && Carried(calls) == 0 <==>
            forall k :: 0 <= k < |calls| ==> Granted(calls[k]) % 125 == 0
  {
    if calls != [] {
      var front, last := calls[..|calls| - 1], calls[|calls| - 1];
      NothingCarried(front);
      CarriedNothing(last);
      assert forall k :: 0 <= k < |front| ==> front[k] == calls[k];
      assert InEighths(calls) <==> forall k :: 0 <= k < |front| ==> Granted(front[k]) % 125 == 0;
    }
  }

  lemma EightsAdd(a: nat, b: nat)
    requires a % 8 == 0 && b % 8 == 0
    ensures (a + b) % 8 == 0
  {
  }

  lemma {:induction false} CarriedInEights(calls: seq<int>)
    ensures CarriedIn(calls) % 8 == 0
  {
    if calls != [] {
      CarriedInEights(calls[..|calls| - 1]);
      CarriedEights(calls[..|calls| - 1]);
      EightsAdd(CarriedIn(calls[..|calls| - 1]), Carried(calls[..|calls| - 1]));
    }
  }

  /** Over a history of calls the bridge is given the ticks of the time that passed, rounded
      down, if and only if every call but the last passes a multiple of 125 milliseconds;
      otherwise it is given too many. */
  lemma KeepsTimeExactly(calls: seq<int>)
    ensures Given(calls) == 0x100 * Milliseconds(calls) / 1000 <==> InEighths(calls)
    ensures Given(calls) >= 0x100 * Milliseconds(calls) / 1000
  {
    ClockLaw(calls);
    NothingCarried(calls);
    CarriedInEights(calls);
    var t, m, c := Given(calls), 0x100 * Milliseconds(calls), CarriedIn(calls);
    Rounding(t, m, c, Carried(calls));
  }

  lemma Rounding(t: nat, m: nat, c: nat, r: nat)
    requires 1000 * t + r == m + 0xff * c && r < 1000 && c % 8 == 0
    ensures t == m / 1000 <==> c == 0
    ensures t >= m / 1000
  {
    assert m == 1000 * (m / 1000) + m % 1000;
    if c > 0 { assert c >= 8; }
  }

  /** Two calls of one millisecond make a quarter of a second. */
  lemma TwoMilliseconds()
    ensures Given([1]) == 0 && Given([1, 1]) == 65
  {
    assert [1, 1][..1] == [1] && [1][..0] == [];
    assert Given([]) == 0 && Carried([]) == 0;
    assert Carried([1]) == 256 && Given([1]) == 0;
  }
}
