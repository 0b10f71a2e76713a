/** How far a host's broadcasts may lag behind its player, over any sequence of
  * ticks that read a position.
  */
module Heartbeat {
  import opened Wrappers
  import opened Protocol
  import opened RoomModel
  import opened Playback

  /** The desk after ticks that read these positions and no news of a stall. */
  function After(d: Desk, positions: seq<real>): Desk
    decreases |positions|
  {
    if positions == [] then d
    else Ticked(After(d, positions[..|positions| - 1]), Some(positions[|positions| - 1]), None, Answering)
  }

  /** Tick `i` of the run broadcasts its position. */
  predicate Broadcasts(d: Desk, positions: seq<real>, i: nat)
    requires i < |positions|
  {
    Sent(Position(positions[i])) in TickSends(After(d, positions[..i]), Some(positions[i]), None, Answering)
  }

  /** The position the loop compares tick `i` with. */
  function Before(d: Desk, positions: seq<real>, i: nat): real
    requires i <= |positions|
  {
    if i == 0 then d.lastPosition else positions[i - 1]
  }

  lemma {:induction false} HostRemembers(d: Desk, positions: seq<real>)
    requires d.room.isHost
    ensures var end := After(d, positions);
      end.room.isHost && end.tick == d.tick + |positions| && end.lastPosition == Before(d, positions, |positions|)
  {
    if positions != [] { HostRemembers(d, positions[..|positions| - 1]); }
  }

  /** A tick of the run broadcasts exactly when the rule says so. */
  lemma BroadcastsExactlyWhenDue(d: Desk, positions: seq<real>, i: nat)
    requires d.room.isHost && i < |positions|
    ensures Broadcasts(d, positions, i) <==> HostSeekDue(Before(d, positions, i), positions[i], d.tick + i + 1)
  {
    HostRemembers(d, positions[..i]);
    hide HostSeekDue;
    var s := After(d, positions[..i]);
    assert Before(d, positions[..i], i) == Before(d, positions, i);
    assert TickSends(s, Some(positions[i]), None, Answering)
        == MirrorSends(s, Some(s.playerPaused), Some(positions[i]));
  }

  /** Steady playback is silent between the heartbeats: after the first sample a position
    * is sent for a move of more than two seconds, either way, and on every tenth tick. */
  lemma SteadyPlaybackIsSilent(d: Desk, positions: seq<real>, i: nat)
    requires d.room.isHost && i < |positions|
    ensures Broadcasts(d, positions, i)
            <==> && Before(d, positions, i) != 0.0
                 && (Gap(Before(d, positions, i), positions[i]) > 2.0 || (d.tick + i + 1) % 10 == 0)
  {
    BroadcastsExactlyWhenDue(d, positions, i);
  }

  /** A jump is sent on its own tick. */
  lemma JumpsTravelAtOnce(d: Desk, positions: seq<real>, i: nat)
    requires d.room.isHost && i < |positions| && Before(d, positions, i) != 0.0
    requires positions[i] - Before(d, positions, i) > MAX_SEEK_DRIFT
        || Before(d, positions, i) - positions[i] > MAX_SEEK_DRIFT
    ensures Broadcasts(d, positions, i)
  {
    BroadcastsExactlyWhenDue(d, positions, i);
  }

  /** Any ten consecutive ticks after the first sample contain a broadcast. */
  lemma TenTicksBroadcast(d: Desk, positions: seq<real>, i: nat)
    requires d.room.isHost && (forall p | p in positions :: p > 0.0)
    requires (i > 0 || d.lastPosition != 0.0) && i + HEARTBEAT_EVERY <= |positions|
    ensures exists j | i <= j < i + HEARTBEAT_EVERY :: Broadcasts(d, positions, j)
  {
    var j := i + (HEARTBEAT_EVERY - 1 - (d.tick + i) % HEARTBEAT_EVERY);
    assert (d.tick + j + 1) % HEARTBEAT_EVERY == 0;
    assert Before(d, positions, j) != 0.0 by { if j > 0 { assert positions[j - 1] in positions; } }
    BroadcastsExactlyWhenDue(d, positions, j);
  }

  function Gap(a: real, b: real): real {
    if a < b then b - a else a - b
  }

  /** Without a broadcast in between, each tick moves by at most the drift. */
  lemma {:induction false} DriftAddsUp(d: Desk, positions: seq<real>, b: nat, i: nat)
    requires d.room.isHost && (forall p | p in positions :: p > 0.0)
    requires b <= i < |positions| && forall j | b < j <= i :: !Broadcasts(d, positions, j)
    ensures Gap(positions[b], positions[i]) <= MAX_SEEK_DRIFT * ((i - b) as real)
    decreases i - b
  {
    if b < i {
      DriftAddsUp(d, positions, b, i - 1);
      BroadcastsExactlyWhenDue(d, positions, i);
      assert positions[i - 1] in positions;
      assert Gap(positions[i - 1], positions[i]) <= MAX_SEEK_DRIFT;
    }
  }

  /** `b` is the last tick up to `i` that broadcast. */
  predicate LastBroadcast(d: Desk, positions: seq<real>, b: nat, i: nat)
    requires b <= i < |positions|
  {
    Broadcasts(d, positions, b) && forall j | b < j <= i :: !Broadcasts(d, positions, j)
  }

  /** From the first broadcast on, the player is never more than nine drifts away
    * from what the host sent last. */
  lemma LagIsBounded(d: Desk, positions: seq<real>, b: nat, i: nat)
    requires d.room.isHost && (forall p | p in positions :: p > 0.0)
    requires b <= i < |positions| && LastBroadcast(d, positions, b, i)
    ensures Gap(positions[b], positions[i]) <= 18.0
  {
    if i - b >= HEARTBEAT_EVERY {
      TenTicksBroadcast(d, positions, b + 1);
      assert false;
    }
    DriftAddsUp(d, positions, b, i);
  }

  lemma {:induction false} LastBroadcastExists(d: Desk, positions: seq<real>, first: nat, i: nat) returns (b: nat)
    requires first <= i < |positions| && Broadcasts(d, positions, first)
    ensures first <= b <= i && LastBroadcast(d, positions, b, i)
    decreases i - first
  {
    hide Broadcasts;
    if Broadcasts(d, positions, i) {
      b := i;
    } else {
      b := LastBroadcastExists(d, positions, first, i - 1);
    }
  }

  /** The two together: after any broadcast, at every later tick, the last one
    * sent is at most 18 seconds from the player. */
  lemma EveryLaterTickIsNear(d: Desk, positions: seq<real>, first: nat, i: nat)
    requires d.room.isHost && (forall p | p in positions :: p > 0.0)
    requires first <= i < |positions| && Broadcasts(d, positions, first)
    ensures exists b | first <= b <= i :: LastBroadcast(d, positions, b, i) && Gap(positions[b], positions[i]) <= 18.0
  {
    var b := LastBroadcastExists(d, positions, first, i);
    LagIsBounded(d, positions, b, i);
  }
}
