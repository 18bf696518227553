/** Where the clips of a stream begin and end: the stream alone determines them. */
module VideoEdges {
  import opened VideoOutput
  import opened VideoClips

  function Ten(n: int): int {
    if n < 10 then n else 10
  }

  /** The first motion frame, the first frame after the motion, and the first after the clip. */
  function First(c: Clip): int { c.start + |c.before| }
  function Turn(c: Clip): int { c.start + |c.before| + |c.motion| }
  function Stop(c: Clip): int { c.start + |c.before| + |c.motion| + |c.after| }

  /** A clip of the frames from a position on: its motion begins with the first motion frame there and
      goes on until a still frame comes or size frames are reached; before it stand the last ten still
      frames, or as many as there are; after it the still frames up to the next motion, or ten. */
  predicate Exact(c: Clip, from: int, frames: seq<Image>, size: nat) {
    && 0 <= from <= c.start && Stop(c) < |frames|
    && (forall k :: from <= k < First(c) ==> !frames[k].motion)
    && |c.before| == Ten(First(c) - from)
    && (|c.motion| == size || !frames[Turn(c)].motion)
    && (|c.after| == 10 || frames[Stop(c)].motion)
  }

  /** The frames after a clip: a motion frame that ended it begins the next one, a still frame that
      ended it is dropped. */
  function From(clips: seq<Clip>, frames: seq<Image>): int {
    if clips == [] then 0
    else
      var e := Stop(clips[|clips| - 1]);
      if 0 <= e < |frames| && !frames[e].motion then e + 1 else e
  }

  predicate AllExact(clips: seq<Clip>, frames: seq<Image>, size: nat) {
    forall i :: 0 <= i < |clips| ==> Exact(clips[i], From(clips[..i], frames), frames, size)
  }

  /** The frames held so far, by the same rule. */
  predicate HeldExact(r: Recorder, frames: seq<Image>) {
    var p := Begin(r) + |r.buf2|;
    && 0 <= From(r.clips, frames) <= Begin(r) && p <= |frames|
    && (forall k :: From(r.clips, frames) <= k < p ==> !frames[k].motion)
    && |r.buf2| == Ten(p - From(r.clips, frames))
    && (r.pre ==> p == |frames|)
  }

  lemma StopAll(c: Clip)
    ensures Stop(c) == c.start + |c.All()|
  {}

  /** Later frames change nothing about clips that have ended. */
  lemma ExactExtends(clips: seq<Clip>, frames: seq<Image>, img: Image, size: nat)
    requires AllExact(clips, frames, size)
    ensures AllExact(clips, frames + [img], size)
    ensures From(clips, frames + [img]) == From(clips, frames)
  {
    forall i | 0 <= i < |clips| ensures Exact(clips[i], From(clips[..i], frames + [img]), frames + [img], size) {
      assert Exact(clips[i], From(clips[..i], frames), frames, size);
      if i > 0 {
        assert clips[..i][i - 1] == clips[i - 1];
        assert Exact(clips[i - 1], From(clips[..i - 1], frames), frames, size);
      }
    }
    if clips != [] {
      var i := |clips| - 1;
      assert Exact(clips[i], From(clips[..i], frames), frames, size);
    }
  }

  /** The frame img ends the clip that is held. */
  lemma CutExact(r: Recorder, frames: seq<Image>, size: nat, written: bool, img: Image)
    requires RecorderInv(r, frames, size) && AllExact(r.clips, frames, size) && HeldExact(r, frames)
    requires r.buf != []
    requires if img.motion then r.post || |r.buf| == size else |r.buf3| == 10
    ensures var clips := r.clips + [Cut(r, written)];
            && AllExact(clips, frames + [img], size)
            && From(clips, frames + [img]) == if img.motion then |frames| else |frames| + 1
  {
    hide ClipsRight, InOrder, Accounted, AllMotion;
    ExactExtends(r.clips, frames, img, size);
    var c := Cut(r, written);
    var clips := r.clips + [c];
    assert Stop(c) == |frames|;
    if r.buf3 != [] {
      assert frames[Turn(c)] == frames[Begin(r)..][|r.buf2| + |r.buf|] == Held(r)[|r.buf2| + |r.buf|] == r.buf3[0];
    }
    assert Exact(c, From(r.clips, frames), frames + [img], size);
    forall i | 0 <= i < |clips| ensures Exact(clips[i], From(clips[..i], frames + [img]), frames + [img], size) {
      if i < |r.clips| {
        assert clips[..i] == r.clips[..i];
      } else {
        assert clips[..i] == r.clips;
      }
    }
  }

  lemma FeedExact(r: Recorder, frames: seq<Image>, size: nat, img: Image)
    requires size > 0 && RecorderInv(r, frames, size)
    requires AllExact(r.clips, frames, size) && HeldExact(r, frames)
    ensures var next := Feed(r, size, img);
            AllExact(next.clips, frames + [img], size) && HeldExact(next, frames + [img])
  {
    hide AllExact, ClipsRight, InOrder, Accounted, AllMotion;
    var next := Feed(r, size, img);
    if img.motion && r.post {
      CutExact(r, frames, size, LongEnough(r), img);
    } else if img.motion && |r.buf| == size {
      CutExact(r, frames, size, true, img);
    } else if !img.motion && !r.pre && |r.buf3| == EDGE {
      FinishesStill(r, size, img);
      CutExact(r, frames, size, LongEnough(r), img);
    } else {
      ExactExtends(r.clips, frames, img, size);
    }
  }

  /** For every stream, the clips are cut exactly as above, one after the other. */
  lemma {:induction false} ClipsExact(size: nat, frames: seq<Image>)
    requires size > 0
    ensures var r := Record(size, frames);
            AllExact(r.clips, frames, size) && HeldExact(r, frames) && ClipsRight(r.clips, frames, size)
    decreases |frames|
  {
    hide RecorderInv, Feed, AllExact, HeldExact;
    if frames == [] {
      EmptyExact(size);
    } else {
      var init, img := frames[..|frames| - 1], frames[|frames| - 1];
      ClipsOfAnyStream(size, init);
      ClipsExact(size, init);
      FeedExact(Record(size, init), init, size, img);
      assert init + [img] == frames;
    }
    ClipsOfAnyStream(size, frames);
    InvClips(Record(size, frames), frames, size);
  }

  lemma EmptyExact(size: nat)
    ensures AllExact([], [], size) && HeldExact(Empty(), []) && Record(size, []) == Empty()
  {}

  lemma InvClips(r: Recorder, frames: seq<Image>, size: nat)
    requires RecorderInv(r, frames, size)
    ensures ClipsRight(r.clips, frames, size)
  {}

  /** There is only one such clip from a position on. */
  lemma ExactUnique(c: Clip, d: Clip, from: int, frames: seq<Image>, size: nat)
    requires Exact(c, from, frames, size) && IsSlice(c, frames, size) && WrittenRightly(c, size)
    requires Exact(d, from, frames, size) && IsSlice(d, frames, size) && WrittenRightly(d, size)
    ensures c == d
  {
    SliceParts(c, frames, size);
    SliceParts(d, frames, size);
    assert frames[First(c)].motion && frames[First(d)].motion;
    assert First(c) == First(d);
    assert Turn(c) == Turn(d);
    assert Stop(c) == Stop(d);
  }

  lemma SliceParts(c: Clip, frames: seq<Image>, size: nat)
    requires IsSlice(c, frames, size)
    ensures c.before == frames[c.start..First(c)] && c.motion == frames[First(c)..Turn(c)]
    ensures c.after == frames[Turn(c)..Stop(c)]
    ensures forall k :: First(c) <= k < Turn(c) ==> frames[k].motion
    ensures forall k :: Turn(c) <= k < Stop(c) ==> !frames[k].motion
  {
    var w := frames[c.start..c.start + |c.All()|];
    assert w == c.before + c.motion + c.after;
    assert c.before == w[..|c.before|] == frames[c.start..First(c)];
    assert c.motion == w[|c.before|..|c.before| + |c.motion|] == frames[First(c)..Turn(c)];
    assert c.after == w[|c.before| + |c.motion|..] == frames[Turn(c)..Stop(c)];
    forall k | First(c) <= k < Turn(c) ensures frames[k].motion { assert frames[k] == c.motion[k - First(c)]; }
    forall k | Turn(c) <= k < Stop(c) ensures !frames[k].motion { assert frames[k] == c.after[k - Turn(c)]; }
  }

  lemma PickExact(clips: seq<Clip>, frames: seq<Image>, size: nat, i: nat)
    requires i < |clips| && AllExact(clips, frames, size) && ClipsRight(clips, frames, size)
    ensures Exact(clips[i], From(clips[..i], frames), frames, size)
    ensures IsSlice(clips[i], frames, size) && WrittenRightly(clips[i], size)
  {
    hide Exact, IsSlice, WrittenRightly, From;
  }

  /** So the stream alone determines every clip that any list of clips cut by these rules has. */
  lemma {:induction false} StreamDetermines(size: nat, frames: seq<Image>, clips: seq<Clip>, i: nat)
    requires size > 0 && AllExact(clips, frames, size) && ClipsRight(clips, frames, size)
    requires i <= |clips| && i <= |Record(size, frames).clips|
    ensures clips[..i] == Record(size, frames).clips[..i]
  {
    hide Record, AllExact, ClipsRight, Exact, IsSlice, WrittenRightly, From, HeldExact;
    if i > 0 {
      StreamDetermines(size, frames, clips, i - 1);
      ClipsExact(size, frames);
      var own := Record(size, frames).clips;
      PickExact(clips, frames, size, i - 1);
      PickExact(own, frames, size, i - 1);
      ExactUnique(clips[i - 1], own[i - 1], From(clips[..i - 1], frames), frames, size);
      assert clips[..i] == clips[..i - 1] + [clips[i - 1]] && own[..i] == own[..i - 1] + [own[i - 1]];
    }
  }
}
