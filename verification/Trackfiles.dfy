/**
 Trackfiles: what is known about one contact. Positions are opaque points; the
 point (0, 0) stands for a contact without a position.
 */
module Trackfiles {
  import opened Basics

  type ID = nat

  datatype Coalition = Red | Blue | Neutrals

  datatype Labels = Labels(id: ID, name: string, coalition: Coalition, acmiName: string)

  datatype Point = Point(lon: real, lat: real)

  // Time 0 is the zero time of an empty trackfile.
  datatype Frame = Frame(time: Time, point: Point, altitude: real, agl: Option<real>)

  const NO_FRAME: Frame := Frame(0, Point(0.0, 0.0), 0.0, None)

  const MAX_FRAMES: nat := 4

  // Frames are kept from the most recent to the least recent.
  datatype Trackfile = Trackfile(contact: Labels, track: seq<Frame>) {
    function LastKnown(): Frame {
      if track == [] then NO_FRAME else track[0]
    }

    predicate IsLastKnownPointZero() {
      LastKnown().point == Point(0.0, 0.0)
    }

    // Frames older than the newest are discarded; the oldest falls out.
    function Update(f: Frame): Trackfile {
      if track != [] && f.time < track[0].time then this
      else this.(track := if |track| < MAX_FRAMES then [f] + track else ([f] + track)[..MAX_FRAMES])
    }
  }

  predicate KeyedByID(contacts: map<ID, Trackfile>) {
    forall id :: id in contacts ==> contacts[id].contact.id == id
  }

  predicate DistinctIDs(ts: seq<Trackfile>) {
    forall i, j :: 0 <= i < j < |ts| ==> ts[i].contact.id != ts[j].contact.id
  }

  function NewTrackfile(labels: Labels): Trackfile {
    Trackfile(labels, [])
  }

  // ---- Histories --------------------------------------------------------------------------

  function AfterFrames(t: Trackfile, frames: seq<Frame>): Trackfile {
    if frames == [] then t else AfterFrames(t, Init(frames)).Update(Last(frames))
  }

  lemma OneFrameMore(t: Trackfile, frames: seq<Frame>, f: Frame)
    ensures AfterFrames(t, frames + [f]) == AfterFrames(t, frames).Update(f)
  {
    assert Init(frames + [f]) == frames;
  }

  // No frame is newer, and those that came after it are older.
  predicate IsNewest(frames: seq<Frame>, k: int) {
    && 0 <= k < |frames|
    && (forall j :: 0 <= j < k ==> frames[j].time <= frames[k].time)
    && (forall j :: k < j < |frames| ==> frames[j].time < frames[k].time)
  }

  lemma OneNewest(frames: seq<Frame>, j: int, k: int)
    requires IsNewest(frames, j) && IsNewest(frames, k)
    ensures j == k
  {
    assert frames[j].time == frames[k].time;
  }

  // In whatever order frames arrive, the last known one is the newest of them, the
  // last of those if several are; labels stay, and at most four frames are kept.
  lemma {:induction false} LastKnownIsNewest(labels: Labels, frames: seq<Frame>) returns (k: nat)
    requires frames != []
    ensures var t := AfterFrames(NewTrackfile(labels), frames);
      && IsNewest(frames, k) && t.LastKnown() == frames[k]
      && t.contact == labels && 1 <= |t.track| <= 4
  {
    var init, n := Init(frames), |frames| - 1;
    if init == [] {
      k := 0;
    } else {
      k := LastKnownIsNewest(labels, init);
      assert forall j :: 0 <= j < n ==> init[j] == frames[j];
      assert forall j :: 0 <= j < n ==> frames[j].time <= frames[k].time;
      if frames[n].time >= frames[k].time {
        k := n;
      }
    }
  }
}
