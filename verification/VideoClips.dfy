/** How the output handler cuts any stream of frames into clips. */
module VideoClips {
  import opened VideoOutput

  predicate AllMotion(s: seq<Image>) {
    forall i :: 0 <= i < |s| ==> s[i].motion
  }

  predicate AllStill(s: seq<Image>) {
    forall i :: 0 <= i < |s| ==> !s[i].motion
  }

  /** A clip is a run of the stream: at most ten still frames, then between one and size motion
      frames, then at most ten still frames. */
  predicate IsSlice(c: Clip, frames: seq<Image>, size: nat) {
    && 0 <= c.start && c.start + |c.All()| <= |frames|
    && frames[c.start..c.start + |c.All()|] == c.All()
    && |c.before| <= EDGE && 1 <= |c.motion| <= size && |c.after| <= EDGE
    && AllStill(c.before) && AllMotion(c.motion) && AllStill(c.after)
  }

  /** A clip is written when its motion buffer was full or when it is long enough. */
  predicate WrittenRightly(c: Clip, size: nat) {
    c.written <==> (|c.motion| == size && c.after == []) || (|c.All()| >= 15 && |c.motion| >= 3)
  }

  /** Where the frames in the buffers begin. */
  function Begin(r: Recorder): int {
    r.count - |r.buf2| - |r.buf| - |r.buf3|
  }

  function Held(r: Recorder): seq<Image> {
    r.buf2 + r.buf + r.buf3
  }

  /** The three phases: waiting, in motion, and after motion. */
  predicate Phase(r: Recorder, size: nat) {
    && |r.buf2| <= EDGE && |r.buf| <= size && |r.buf3| <= EDGE
    && AllStill(r.buf2) && AllMotion(r.buf) && AllStill(r.buf3)
    && (if r.pre then !r.post && r.buf == [] && r.buf3 == []
        else r.buf != [] && (r.post <==> r.buf3 != []))
  }

  predicate ClipEnd(c: Clip, end: int) {
    c.start + |c.All()| <= end
  }

  /** Clips are slices in stream order without overlap, and end before the frames now held. */
  predicate InOrder(clips: seq<Clip>, end: int) {
    && (forall i :: 0 <= i < |clips| ==> ClipEnd(clips[i], end))
    && (forall i, j :: 0 <= i < j < |clips| ==> ClipEnd(clips[i], clips[j].start))
  }

  predicate Covers(c: Clip, k: int) {
    c.start + |c.before| <= k < c.start + |c.before| + |c.motion|
  }

  /** Every motion frame so far is a motion frame of a clip or is held in buf_. */
  predicate Accounted(r: Recorder, frames: seq<Image>) {
    forall k :: 0 <= k < |frames| && frames[k].motion ==>
      Begin(r) + |r.buf2| <= k < Begin(r) + |r.buf2| + |r.buf|
      || exists i :: 0 <= i < |r.clips| && Covers(r.clips[i], k)
  }

  predicate ClipsRight(clips: seq<Clip>, frames: seq<Image>, size: nat) {
    forall i :: 0 <= i < |clips| ==> IsSlice(clips[i], frames, size) && WrittenRightly(clips[i], size)
  }

  predicate RecorderInv(r: Recorder, frames: seq<Image>, size: nat) {
    && r.count == |frames| && 0 <= Begin(r)
    && frames[Begin(r)..] == Held(r)
    && Phase(r, size)
    && ClipsRight(r.clips, frames, size) && InOrder(r.clips, Begin(r))
    && Accounted(r, frames)
  }

  /** Taking a cut closes the held frames off. */
  lemma CutKeeps(r: Recorder, frames: seq<Image>, size: nat, written: bool)
    requires RecorderInv(r, frames, size) && r.buf != []
    requires WrittenRightly(Cut(r, written), size)
    ensures var clips := r.clips + [Cut(r, written)];
            && ClipsRight(clips, frames, size) && InOrder(clips, |frames|)
            && forall k :: 0 <= k < |frames| && frames[k].motion ==>
                 exists i :: 0 <= i < |clips| && Covers(clips[i], k)
  {
    hide AllMotion, AllStill, WrittenRightly;
    var c := Cut(r, written);
    var clips := r.clips + [c];
    assert clips[|r.clips|] == c;
    assert c.All() == Held(r) && c.start == Begin(r);
    assert frames[Begin(r)..] == frames[c.start..c.start + |c.All()|];
    forall k | 0 <= k < |frames| && frames[k].motion ensures exists i :: 0 <= i < |clips| && Covers(clips[i], k) {
      if Begin(r) + |r.buf2| <= k < Begin(r) + |r.buf2| + |r.buf| {
        assert Covers(clips[|r.clips|], k);
      } else {
        var i :| 0 <= i < |r.clips| && Covers(r.clips[i], k);
        assert Covers(clips[i], k);
      }
    }
  }

  lemma ClipsExtend(clips: seq<Clip>, frames: seq<Image>, img: Image, size: nat)
    requires ClipsRight(clips, frames, size)
    ensures ClipsRight(clips, frames + [img], size)
  {
    hide AllMotion, AllStill, WrittenRightly;
    forall i | 0 <= i < |clips| ensures IsSlice(clips[i], frames + [img], size) {
      var c := clips[i];
      assert IsSlice(c, frames, size);
      assert (frames + [img])[c.start..c.start + |c.All()|] == frames[c.start..c.start + |c.All()|];
    }
  }

  lemma OrderExtends(clips: seq<Clip>, end: int, later: int)
    requires InOrder(clips, end) && end <= later
    ensures InOrder(clips, later)
  {}

  /** The handler starts over with the clips so far; img is dropped or becomes the first frame. */
  lemma StartOver(r: Recorder, frames: seq<Image>, size: nat, written: bool, img: Image, next: Recorder)
    requires size > 0 && RecorderInv(r, frames, size) && r.buf != [] && WrittenRightly(Cut(r, written), size)
    requires next.clips == r.clips + [Cut(r, written)] && next.count == r.count + 1
    requires if img.motion then next == next.(buf := [img], buf2 := [], buf3 := [], pre := false, post := false)
             else next == next.(buf := [], buf2 := [], buf3 := [], pre := true, post := false)
    ensures RecorderInv(next, frames + [img], size)
  {
    hide WrittenRightly, ClipsRight, InOrder, Covers, Cut;
    CutKeeps(r, frames, size, written);
    ClipsExtend(next.clips, frames, img, size);
    OrderExtends(next.clips, |frames|, Begin(next));
    assert (frames + [img])[Begin(next)..] == Held(next);
    forall k | 0 <= k < |frames + [img]| && (frames + [img])[k].motion
      ensures Begin(next) + |next.buf2| <= k < Begin(next) + |next.buf2| + |next.buf|
              || exists i :: 0 <= i < |next.clips| && Covers(next.clips[i], k) {
      if k < |frames| { assert frames[k].motion; }
    }
  }

  /** img joins a buffer; at most the oldest still frame before it is forgotten. */
  lemma TakeIn(r: Recorder, frames: seq<Image>, size: nat, img: Image, next: Recorder)
    requires RecorderInv(r, frames, size) && Phase(next, size)
    requires img.motion ==> r.buf3 == []
    requires next.clips == r.clips && next.count == r.count + 1
    requires || Held(next) == Held(r) + [img]
             || (Held(r) != [] && !Held(r)[0].motion && Held(next) == Held(r)[1..] + [img])
    requires Begin(next) + |next.buf2| + |next.buf| ==
             Begin(r) + |r.buf2| + |r.buf| + (if img.motion then 1 else if r.buf == [] then 1 else 0)
    requires r.buf != [] ==> Begin(next) + |next.buf2| == Begin(r) + |r.buf2|
    requires r.buf == [] ==> Begin(next) + |next.buf2| == |frames| + (if img.motion then 0 else 1)
    ensures RecorderInv(next, frames + [img], size)
  {
    hide ClipsRight, InOrder, Covers, AllMotion, AllStill;
    ClipsExtend(r.clips, frames, img, size);
    assert Begin(next) == |frames| + 1 - |Held(next)| && Begin(r) == |frames| - |Held(r)|;
    OrderExtends(r.clips, Begin(r), Begin(next));
    assert (frames + [img])[Begin(r)..] == Held(r) + [img];
    assert (frames + [img])[Begin(next)..] == Held(next);
    forall k | 0 <= k < |frames + [img]| && (frames + [img])[k].motion
      ensures Begin(next) + |next.buf2| <= k < Begin(next) + |next.buf2| + |next.buf|
              || exists i :: 0 <= i < |next.clips| && Covers(next.clips[i], k) {
      if k < |frames| { assert frames[k].motion; }
    }
  }

  lemma FeedKeeps(r: Recorder, frames: seq<Image>, size: nat, img: Image)
    requires size > 0 && RecorderInv(r, frames, size)
    ensures RecorderInv(Feed(r, size, img), frames + [img], size)
  {
    hide ClipsRight, InOrder, Accounted, Covers;
    var next := Feed(r, size, img);
    if img.motion {
      if r.post {
        StartOver(r, frames, size, LongEnough(r), img, next);
      } else if |r.buf| == size {
        StartOver(r, frames, size, true, img, next);
      } else {
        TakeIn(r, frames, size, img, next);
      }
    } else if !r.pre && |r.buf3| == EDGE {
      FinishesStill(r, size, img);
      StartOver(r, frames, size, LongEnough(r), img, next);
    } else {
      TakeIn(r, frames, size, img, next);
    }
  }

  lemma FinishesStill(r: Recorder, size: nat, img: Image)
    requires !r.pre && |r.buf3| == EDGE && !img.motion
    ensures Feed(r, size, img) == Recorder([], [], [], true, false, r.clips + [Cut(r, LongEnough(r))], r.count + 1)
  {}

  /** For every frame stream and every capacity of at least one: the clips are slices of the stream,
      in order and disjoint, written exactly when full or long enough, and no motion frame is lost
      between them. */
  lemma {:induction false} ClipsOfAnyStream(size: nat, frames: seq<Image>)
    requires size > 0
    ensures RecorderInv(Record(size, frames), frames, size)
    decreases |frames|
  {
    hide RecorderInv, Feed;
    if frames == [] {
      EmptyInv(size);
    } else {
      var init := frames[..|frames| - 1];
      ClipsOfAnyStream(size, init);
      FeedKeeps(Record(size, init), init, size, frames[|frames| - 1]);
      assert init + [frames[|frames| - 1]] == frames;
    }
  }

  lemma EmptyInv(size: nat)
    ensures RecorderInv(Empty(), [], size)
  {}

  /** A video is cut with no frame in buf_, so that buf_[0] is read from an empty buffer, in some
      stream exactly when the capacity is zero. */
  lemma ReadsEmptyIff(size: nat)
    ensures (exists frames :: HasEmptyClip(Record(size, frames))) <==> size == 0
  {
    hide Record, RecorderInv;
    if size == 0 {
      var img := Image(0, 0, true);
      ZeroCapacity(img);
      assert HasEmptyClip(Record(0, [img]));
    } else {
      forall frames ensures !HasEmptyClip(Record(size, frames)) {
        ClipsOfAnyStream(size, frames);
        NoEmptyClip(Record(size, frames), frames, size);
      }
    }
  }

  predicate HasEmptyClip(r: Recorder) {
    exists i :: 0 <= i < |r.clips| && r.clips[i].written && r.clips[i].motion == []
  }

  lemma NoEmptyClip(r: Recorder, frames: seq<Image>, size: nat)
    requires RecorderInv(r, frames, size)
    ensures !HasEmptyClip(r)
  {
    hide AllMotion, AllStill, Accounted, InOrder, Phase, WrittenRightly;
    forall i | 0 <= i < |r.clips| ensures r.clips[i].motion != [] {
      assert IsSlice(r.clips[i], frames, size);
    }
  }

  lemma ZeroCapacity(img: Image)
    requires img.motion
    ensures HasEmptyClip(Record(0, [img]))
  {
    assert [img][..0] == [] && Record(0, []) == Empty();
    assert Record(0, [img]) == Feed(Empty(), 0, img);
    var r := Record(0, [img]);
    assert r.clips[0] == Clip([], [], [], 0, true);
  }
}
