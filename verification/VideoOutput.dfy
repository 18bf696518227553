/** The output handler of the video module: it cuts the frame stream into clips and counts for each
    attachment the replies after which its file may go. */
module VideoOutput {
  import opened Text

  const EDGE := 10

  /** A frame with what the detector found in it, which out() gets beside the image. */
  datatype Image = Image(camId: nat, imageId: nat, motion: bool)

  /** A cut of the stream: the frames in the three buffers, where in the stream they begin, and
      whether a video was written. */
  datatype Clip = Clip(before: seq<Image>, motion: seq<Image>, after: seq<Image>, start: int, written: bool) {
    function All(): seq<Image> {
      before + motion + after
    }
  }

  /** buf_, buf2_ and buf3_, the flags, the cuts made, and how many frames came in. */
  datatype Recorder = Recorder(buf: seq<Image>, buf2: seq<Image>, buf3: seq<Image>, pre: bool, post: bool,
                               clips: seq<Clip>, count: nat)

  function Empty(): Recorder {
    Recorder([], [], [], true, false, [], 0)
  }

  /** push_back of a circular buffer: the oldest element makes room. */
  function Push(buffer: seq<Image>, capacity: nat, img: Image): seq<Image> {
    if capacity == 0 then buffer
    else if |buffer| == capacity then buffer[1..] + [img]
    else buffer + [img]
  }

  predicate LongEnough(r: Recorder) {
    |r.buf| + |r.buf2| + |r.buf3| >= 15 && |r.buf| >= 3
  }

  function Cut(r: Recorder, written: bool): Clip {
    Clip(r.buf2, r.buf, r.buf3, r.count - |r.buf| - |r.buf2| - |r.buf3|, written)
  }

  /** Write the video if it is long enough, and start over. */
  function Finish(r: Recorder): Recorder {
    Recorder([], [], [], true, false, r.clips + [Cut(r, LongEnough(r))], r.count)
  }

  function OnMotion(r: Recorder, size: nat, img: Image): Recorder {
    var r1 := if r.post then Finish(r) else r;
    var r2 := r1.(pre := false);
    var r3 := if |r2.buf| == size then r2.(clips := r2.clips + [Cut(r2, true)], buf := [], buf2 := []) else r2;
    r3.(buf := Push(r3.buf, size, img))
  }

  function OnStill(r: Recorder, img: Image): Recorder {
    var r1 := if r.pre then r else r.(post := true);
    var r2 := if r1.pre then r1.(buf2 := Push(r1.buf2, EDGE, img)) else r1;
    if !r2.post then r2
    else if |r2.buf3| == EDGE then Finish(r2)
    else r2.(buf3 := Push(r2.buf3, EDGE, img))
  }

  /** The video part of out(). */
  function Feed(r: Recorder, size: nat, img: Image): Recorder {
    (if img.motion then OnMotion(r, size, img) else OnStill(r, img)).(count := r.count + 1)
  }

  function Record(size: nat, frames: seq<Image>): Recorder {
    if frames == [] then Empty() else Feed(Record(size, frames[..|frames| - 1]), size, frames[|frames| - 1])
  }

  // ---------- attachments ----------

  datatype Attached = Attached(ruleId: nat, attachments: string)

  /** An event message handed to the module's sender. */
  datatype Event = Event(ruleId: nat, vars: string)

  predicate Contains(s: string, w: string) {
    exists i :: 0 <= i <= |s| - |w| && At(s, i, w)
  }

  /** How many rules of the route attach this kind. */
  function Attaching(rules: seq<Attached>, kind: string): nat {
    if rules == [] then 0 else (if Contains(rules[0].attachments, kind) then 1 else 0) + Attaching(rules[1..], kind)
  }

  function EventsFor(rules: seq<Attached>, kind: string, name: string): (r: seq<Event>)
    ensures |r| == Attaching(rules, kind)
    ensures forall e :: e in r ==> e.vars == kind + "=" + name
  {
    if rules == [] then []
    else (if Contains(rules[0].attachments, kind) then [Event(rules[0].ruleId, kind + "=" + name)] else [])
         + EventsFor(rules[1..], kind, name)
  }

  function PlainEvents(rules: seq<Attached>): seq<Event> {
    if rules == [] then []
    else (if !Contains(rules[0].attachments, "video") && !Contains(rules[0].attachments, "image")
          then [Event(rules[0].ruleId, "")] else [])
         + PlainEvents(rules[1..])
  }

  /** Each rule has its say: with the kind among its attachments it gets one event with the name, in
      the order of the rules. */
  lemma {:induction false} EventsSplit(rules: seq<Attached>, kind: string, name: string, i: nat)
    requires i < |rules|
    ensures EventsFor([], kind, name) == []
    ensures EventsFor(rules, kind, name) ==
              EventsFor(rules[..i], kind, name)
              + (if Contains(rules[i].attachments, kind) then [Event(rules[i].ruleId, kind + "=" + name)] else [])
              + EventsFor(rules[i + 1..], kind, name)
    decreases i
  {
    hide Contains;
    if i > 0 {
      EventsSplit(rules[1..], kind, name, i - 1);
      assert rules[..i][0] == rules[0] && rules[..i][1..] == rules[1..][..i - 1];
      assert rules[1..][i..] == rules[i + 1..];
    } else {
      assert rules[..0] == [];
    }
  }

  /** A rule without attachments gets one event for each frame, without variables. */
  lemma {:induction false} PlainSplit(rules: seq<Attached>, i: nat)
    requires i < |rules|
    ensures PlainEvents([]) == []
    ensures var a := rules[i].attachments;
            PlainEvents(rules) == PlainEvents(rules[..i])
              + (if Contains(a, "video") || Contains(a, "image") then [] else [Event(rules[i].ruleId, "")])
              + PlainEvents(rules[i + 1..])
    decreases i
  {
    hide Contains;
    if i > 0 {
      PlainSplit(rules[1..], i - 1);
      assert rules[..i][0] == rules[0] && rules[..i][1..] == rules[1..][..i - 1];
      assert rules[1..][i..] == rules[i + 1..];
    } else {
      assert rules[..0] == [];
    }
  }

  /** This frame makes the handler write a video. */
  predicate Writes(r: Recorder, size: nat, img: Image) {
    var clips := Feed(r, size, img).clips;
    |clips| > |r.clips| && clips[|clips| - 1].written
  }

  lemma PushFills(buffer: seq<Image>, capacity: nat, img: Image)
    requires capacity > 0
    ensures Push(buffer, capacity, img) != []
  {}

  function Pending(p: map<string, int>, name: string): int {
    if name in p then p[name] else 0
  }

  function AddPending(p: map<string, int>, name: string, n: nat): map<string, int> {
    if n == 0 then p else p[name := Pending(p, name) + n]
  }

  /** One reply carrying a name: the new counts, and whether the file is deleted. */
  function Release(p: map<string, int>, name: string): (map<string, int>, bool) {
    var c := Pending(p, name) - 1;
    if c == 0 then (p - {name}, true) else (p[name := c], false)
  }

  /** The names a reply carries under "video" and then "image". */
  function Carried(vars: map<string, string>): seq<string> {
    (if "video" in vars then [vars["video"]] else []) + (if "image" in vars then [vars["image"]] else [])
  }

  datatype Files = Files(pending: map<string, int>, deleted: seq<string>)

  function ReleaseOne(f: Files, name: string): Files {
    var (p, gone) := Release(f.pending, name);
    Files(p, if gone then f.deleted + [name] else f.deleted)
  }

  function ReleaseAll(f: Files, names: seq<string>): Files
    decreases |names|
  {
    if names == [] then f
    else ReleaseAll(ReleaseOne(f, names[0]), names[1..])
  }

  lemma CarriedCases(f: Files, vars: map<string, string>)
    ensures ReleaseAll(f, Carried(vars)) ==
              var f1 := if "video" in vars then ReleaseOne(f, vars["video"]) else f;
              if "image" in vars then ReleaseOne(f1, vars["image"]) else f1
  {
    hide ReleaseOne;
    if "video" in vars {
      var a := vars["video"];
      if "image" in vars {
        var b := vars["image"];
        assert Carried(vars) == [a, b] && [a, b][1..] == [b];
        ReleaseSingle(ReleaseOne(f, a), b);
      } else {
        assert Carried(vars) == [a];
        ReleaseSingle(f, a);
      }
    } else if "image" in vars {
      assert Carried(vars) == [vars["image"]];
      ReleaseSingle(f, vars["image"]);
    }
  }

  lemma ReleaseSingle(f: Files, name: string)
    ensures ReleaseAll(f, [name]) == ReleaseOne(f, name)
  {
    assert [name][1..] == [];
  }

  class OutputHandler {
    const size: nat
    const rules: seq<Attached>
    const write: bool
    const image: bool
    var buf: seq<Image>
    var buf2: seq<Image>
    var buf3: seq<Image>
    var pre: bool
    var post: bool
    var pending: map<string, int>
    var clips: seq<Clip>
    var count: nat
    var deleted: seq<string>
    var events: seq<Event>

    constructor (size: nat, rules: seq<Attached>)
      requires size > 0
      ensures this.size == size && this.rules == rules
      ensures write == (Attaching(rules, "video") > 0) && image == (Attaching(rules, "image") > 0)
      ensures State() == Empty() && Valid()
      ensures Counts() == Files(map[], []) && events == []
    {
      this.size, this.rules := size, rules;
      write, image := Attaching(rules, "video") > 0, Attaching(rules, "image") > 0;
      buf, buf2, buf3, pre, post := [], [], [], true, false;
      pending, clips, count, deleted, events := map[], [], 0, [], [];
    }

    function State(): Recorder
      reads this
    {
      Recorder(buf, buf2, buf3, pre, post, clips, count)
    }

    function Counts(): Files
      reads this
    {
      Files(pending, deleted)
    }

    /** After the first motion there is always a motion frame in buf_. */
    predicate Valid()
      reads this
    {
      size > 0 && (pre || buf != []) && (post ==> !pre)
    }

    /** forkVideoWriter(): reads buf_[0] for the name, counts, and lets a child write the video and
        send the events. name stands for the path built from the first frame and the time. */
    method ForkVideoWriter(name: string)
      requires buf != []
      modifies this`pending, this`events, this`clips
      ensures pending == AddPending(old(pending), name, Attaching(rules, "video"))
      ensures events == old(events) + EventsFor(rules, "video", name)
      ensures clips == old(clips) + [Cut(old(State()), true)]
    {
      Count("video", name);
      events := events + EventsFor(rules, "video", name);
      clips := clips + [Cut(State(), true)];
    }

    method ForkImageWriter(name: string)
      modifies this`pending, this`events
      ensures pending == AddPending(old(pending), name, Attaching(rules, "image"))
      ensures events == old(events) + EventsFor(rules, "image", name)
    {
      Count("image", name);
      events := events + EventsFor(rules, "image", name);
    }

    /** The counting loop of both. */
    method Count(kind: string, name: string)
      modifies this`pending
      ensures pending == AddPending(old(pending), name, Attaching(rules, kind))
    {
      for i := 0 to |rules|
        invariant AddPending(pending, name, Attaching(rules[i..], kind))
               == AddPending(old(pending), name, Attaching(rules, kind))
      {
        assert rules[i..][1..] == rules[i + 1..];
        if Contains(rules[i].attachments, kind) {
          var c := if name in pending then pending[name] else 0;
          pending := pending[name := c + 1];
        }
      }
    }

    /** The write_ part of out(). A video, if one is written, is the last clip. */
    method Cutting(img: Image, name: string)
      requires Valid()
      modifies this`buf, this`buf2, this`buf3, this`pre, this`post, this`clips, this`count, this`pending, this`events
      ensures Valid() && State() == Feed(old(State()), size, img)
      ensures var n := if Writes(old(State()), size, img) then Attaching(rules, "video") else 0;
              pending == AddPending(old(pending), name, n)
      ensures events == old(events) + if Writes(old(State()), size, img) then EventsFor(rules, "video", name) else []
    {
      hide Attaching, EventsFor, Push;
      if img.motion && post {
        FinishClip(name);
      }
      if img.motion {
        pre := false;
        if |buf| == size {
          ForkVideoWriter(name);
          buf, buf2 := [], [];
        }
        buf := Push(buf, size, img);
        assert buf != [] by { PushFills(old(buf), size, img); PushFills([], size, img); }
      } else if !pre {
        post := true;
      }
      if !img.motion && pre {
        buf2 := Push(buf2, EDGE, img);
      }
      if !img.motion && post {
        if |buf3| == EDGE {
          FinishClip(name);
        } else {
          buf3 := Push(buf3, EDGE, img);
        }
      }
      count := count + 1;
    }

    /** Write the video if it is long enough and start over; out() does this in two places. */
    method FinishClip(name: string)
      requires buf != []
      modifies this`buf, this`buf2, this`buf3, this`pre, this`post, this`clips, this`pending, this`events
      ensures State() == Finish(old(State()))
      ensures pending ==
                AddPending(old(pending), name, if LongEnough(old(State())) then Attaching(rules, "video") else 0)
      ensures events == old(events) + if LongEnough(old(State())) then EventsFor(rules, "video", name) else []
    {
      if |buf| + |buf2| + |buf3| >= 15 && |buf| >= 3 {
        ForkVideoWriter(name);
      } else {
        clips := clips + [Cut(State(), false)];
      }
      buf, buf2, buf3 := [], [], [];
      post, pre := false, true;
    }

    method Out(img: Image, videoName: string, imageName: string)
      requires Valid()
      modifies this
      ensures Valid()
      ensures State() == if write then Feed(old(State()), size, img) else old(State())
      ensures deleted == old(deleted)
      ensures var n := if write && Writes(old(State()), size, img) then Attaching(rules, "video") else 0;
              var m := if image && img.motion then Attaching(rules, "image") else 0;
              pending == AddPending(AddPending(old(pending), videoName, n), imageName, m)
      ensures events == old(events)
                + (if write && Writes(old(State()), size, img) then EventsFor(rules, "video", videoName) else [])
                + (if image && img.motion then EventsFor(rules, "image", imageName) else [])
                + PlainEvents(rules)
    {
      hide Attaching, EventsFor, Feed, Writes;
      if write {
        Cutting(img, videoName);
      }
      if image {
        if img.motion {
          ForkImageWriter(imageName);
        }
      }
      SendPlain();
    }

    /** Events of rules without attachments. */
    method SendPlain()
      modifies this`events
      ensures events == old(events) + PlainEvents(rules)
    {
      for i := 0 to |rules|
        invariant events + PlainEvents(rules[i..]) == old(events) + PlainEvents(rules)
      {
        assert rules[i..][0] == rules[i] && rules[i..][1..] == rules[i + 1..];
        if !Contains(rules[i].attachments, "video") && !Contains(rules[i].attachments, "image") {
          events := events + [Event(rules[i].ruleId, "")];
        }
      }
    }

    /** A message with these variables; only acknowledgements and aborts of events count. */
    method HandlePendingAttachments(isReply: bool, vars: map<string, string>)
      modifies this`pending, this`deleted
      ensures Counts() == if isReply then ReleaseAll(old(Counts()), Carried(vars)) else old(Counts())
    {
      CarriedCases(Counts(), vars);
      if isReply {
        if "video" in vars {
          ReleaseName(vars["video"]);
        }
        if "image" in vars {
          ReleaseName(vars["image"]);
        }
      }
    }

    method ReleaseName(name: string)
      modifies this`pending, this`deleted
      ensures Counts() == ReleaseOne(old(Counts()), name)
    {
      var c := if name in pending then pending[name] else 0;
      pending := pending[name := c - 1];
      if pending[name] == 0 {
        deleted := deleted + [name];
        pending := pending - {name};
        assert pending == old(pending) - {name};
      }
    }
  }
}
