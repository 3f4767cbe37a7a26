/** The composition bin LV::Bin: one active actor drawing into the bin's video,
    an input feeding it audio, and an actor switch that either finalizes at
    once or morphs from the old actor to the new one over several frames.
    Actors, inputs and morphs are opaque plugin objects: the bin reads their
    supported depths, realized flags and bound videos, counts the references it
    takes and drops (ghost counters), and records every call into plugin code
    (realize, negotiate, run, the morph setters) as an event in its log. */
module LvBin {
  import opened Wrappers
  import opened LvVideo

  /** VisBinDepth: which end of a depth mask the bin prefers. */
  datatype BinDepth = BinLowest | BinHighest

  /** A morph duration, as the seconds and microseconds of an LV::Time. */
  datatype Time = Time(sec: int, usec: int)

  /** An actor plugin: the depths it can draw, whether its plugin is loaded and
      realized, and the video it draws into. */
  class Actor {
    var supportedDepths: Mask
    var hasPlugin: bool
    var realized: bool
    var video: Video?
    ghost var refs: int
  }

  /** An input plugin; the bin only runs it and counts references to it. */
  class Input {
    ghost var refs: int
  }

  /** A morph plugin: the depths it supports, whether its plugin is loaded, and
      what visual_morph_is_done would answer. */
  class Morph {
    var supportedDepths: Mask
    var hasPlugin: bool
    var done: bool
    ghost var refs: int
  }

  /** A call from the bin into plugin code. */
  datatype Event =
    | ActorRealized(realized: Actor?)
    | ActorNegotiated(negotiated: Actor?, forced: Depth, noevent: bool)
    | ActorRan(ran: Actor)
    | InputRan(input: Input)
    | MorphVideoSet(target: Morph?, video: Video)
    | MorphStarted(started: Morph, output: Video, time: Time)
    | MorphRealized(morph: Morph)
    | MorphRan(running: Morph, from: Video?, to: Video?)

  /** Whose palette Bin::get_palette returns. */
  datatype PaletteSource = FromMorph(morph: Morph?) | FromActor(actor: Actor?)

  function Actors(a: Actor?): set<Actor> { if a == null then {} else {a} }
  function Inputs(i: Input?): set<Input> { if i == null then {} else {i} }
  function Morphs(m: Morph?): set<Morph> { if m == null then {} else {m} }
  function Videos(v: Video?): set<Video> { if v == null then {} else {v} }

  /** The depth the bin would choose from pref's end of the mask. */
  function Preferred(pref: BinDepth, flag: Mask): Depth {
    match pref
    case BinLowest => Lowest(flag)
    case BinHighest => Highest(flag)
  }

  /** Impl::get_suitable_depth: the preferred end of the mask, or else its
      highest software depth. */
  function SuitableDepth(pref: BinDepth, flag: Mask): (d: Depth)
    ensures flag != NoDepths ==> Supported(flag, d)
    ensures flag == NoDepths ==> d == NONE
  {
    var depth := Preferred(pref, flag);
    if Supported(flag, depth) then depth else HighestNoGL(flag)
  }

  /** The suitable depth of a non-empty mask is its lowest or highest depth,
      as the bin prefers. */
  lemma SuitableDepthIsPreferredEnd(pref: BinDepth, flag: Mask)
    requires flag != NoDepths
    ensures pref == BinLowest ==> forall e: Depth | Supported(flag, e) :: Value(SuitableDepth(pref, flag)) <= Value(e)
    ensures pref == BinHighest ==> forall e: Depth | Supported(flag, e) :: Value(e) <= Value(SuitableDepth(pref, flag))
  {
    LowestIsLeast(flag);
    HighestIsGreatest(flag);
  }

  /** The fallback to the highest software depth is taken only for an empty
      mask: the preferred end of a non-empty mask is always in it. */
  lemma SuitableFallbackOnlyWhenEmpty(pref: BinDepth, flag: Mask)
    ensures !Supported(flag, Preferred(pref, flag)) <==> flag == NoDepths
  {
  }

  /** The realize-and-negotiate calls run makes, at the forced depth, for a
      pending actor m and a main actor a that are not yet realized (a main
      actor that is m itself is realized with it). */
  function Prepared(m: Actor, a: Actor, mRealized: bool, aRealized: bool, forced: Depth): (r: seq<Event>)
    ensures |r| == (if mRealized then 0 else 2) + (if aRealized || a == m then 0 else 2)
  {
    (if mRealized then [] else [ActorRealized(m), ActorNegotiated(m, forced, false)]) +
    (if aRealized || a == m then [] else [ActorRealized(a), ActorNegotiated(a, forced, false)])
  }

  class Bin {
    var actor: Actor?
    var actvideo: Video?
    var privvid: Video?
    var actmorphvideo: Video?
    var actmorph: Actor?
    var input: Input?
    var useMorph: bool
    var morph: Morph?
    var morphing: bool
    var morphtime: Time
    var depthpreferred: BinDepth
    var depthflag: Mask
    var depthold: Depth
    var depth: Depth
    var depthchanged: bool
    var depthfromGL: bool
    var depthforced: Depth
    var depthforcedmain: Depth
    /** The calls into plugin code, oldest first. */
    var log: seq<Event>

    /** What every operation keeps: a switch is in progress exactly while there
        is a pending actor; the private video and the pending actor's video
        exist only during a switch, and neither is the bin's own video. */
    ghost predicate Valid()
      reads this`privvid, this`actvideo, this`actmorphvideo, this`actmorph, this`morphing
    {
      && Separate()
      && morphing == (actmorph != null)
      && (privvid != null ==> morphing)
      && (actmorphvideo != null ==> morphing)
    }

    /** The bin's own videos are distinct from the video it draws into. */
    ghost predicate Separate()
      reads this`privvid, this`actvideo, this`actmorphvideo
    {
      && (privvid != null ==> privvid != actvideo && privvid != actmorphvideo)
      && (actmorphvideo != null ==> actmorphvideo != actvideo)
    }

    /** The end state of switch_finalize: the pending actor became the actor,
        and nothing of the switch is left. */
    twostate predicate Finalized()
      reads this`actor, this`actmorph, this`actmorphvideo, this`privvid, this`morph, this`morphing
    {
      actor == old(actmorph) && actmorph == null && actmorphvideo == null && privvid == null &&
      morph == null && !morphing
    }

    /** What Bin::set_depth(d) does to the depth fields, from the state the
        enclosing call started in: depthold always takes the depth; an
        unsupported depth changes nothing else; a supported one becomes the
        depth, raises depthchanged when it differs (never clearing it) and sets
        depthfromGL exactly when the depth was GL and a change is pending. */
    twostate predicate DepthSetTo(d: Depth)
      reads this`depthold, this`depth, this`depthchanged, this`depthfromGL, this`depthflag
    {
      && depthold == old(depth)
      && if Supported(depthflag, d) then
           depth == d && depthchanged == (old(depthchanged) || old(depth) != d) &&
           depthfromGL == (old(depth) == GL && depthchanged)
         else
           depth == old(depth) && depthchanged == old(depthchanged) && depthfromGL == old(depthfromGL)
    }

    /** Impl::Impl: nothing connected, the highest depth preferred, no depth
        yet, and a four second morph. */
    constructor ()
      ensures Valid() && log == []
      ensures actor == null && actvideo == null && privvid == null && actmorphvideo == null
      ensures actmorph == null && input == null && morph == null && !useMorph && !morphing
      ensures morphtime == Time(4, 0) && depthpreferred == BinHighest && depthflag == NoDepths
      ensures depthold == NONE && depth == NONE && !depthchanged && !depthfromGL
      ensures depthforced == NONE && depthforcedmain == NONE
    {
      actor, actvideo, privvid, actmorphvideo, actmorph := null, null, null, null, null;
      input, useMorph, morph, morphing, morphtime := null, false, null, false, Time(4, 0);
      depthpreferred, depthflag, depthold, depth := BinHighest, NoDepths, NONE, NONE;
      depthchanged, depthfromGL, depthforced, depthforcedmain := false, false, NONE, NONE;
      log := [];
    }

    /** Impl::~Impl: drop the references held to the actor, input, morph and
        pending actor (the actor twice when it is also the pending one). */
    method Dispose()
      modifies Actors(actor)`refs, Inputs(input)`refs, Morphs(morph)`refs, Actors(actmorph)`refs
      ensures actor != null ==> actor.refs == old(actor.refs) - (if actmorph == actor then 2 else 1)
      ensures actmorph != null && actmorph != actor ==> actmorph.refs == old(actmorph.refs) - 1
      ensures input != null ==> input.refs == old(input.refs) - 1
      ensures morph != null ==> morph.refs == old(morph.refs) - 1
    {
      if actor != null {
        actor.refs := actor.refs - 1;
      }
      if input != null {
        input.refs := input.refs - 1;
      }
      if morph != null {
        morph.refs := morph.refs - 1;
      }
      if actmorph != null {
        actmorph.refs := actmorph.refs - 1;
      }
    }

    /** Impl::set_actor: release the old actor, hold the new one. */
    method SetActor(a: Actor?)
      modifies this`actor, Actors(actor)`refs, Actors(a)`refs
      ensures actor == a
      ensures old(actor) != null && old(actor) != a ==> old(actor).refs == old(actor.refs) - 1
      ensures a != null && old(actor) != a ==> a.refs == old(a.refs) + 1
      ensures a != null && old(actor) == a ==> a.refs == old(a.refs)
    {
      if actor != null {
        actor.refs := actor.refs - 1;
      }
      actor := a;
      if actor != null {
        actor.refs := actor.refs + 1;
      }
    }

    /** Impl::set_input: release the old input, hold the new one. */
    method SetInput(i: Input?)
      modifies this`input, Inputs(input)`refs, Inputs(i)`refs
      ensures input == i
      ensures old(input) != null && old(input) != i ==> old(input).refs == old(input.refs) - 1
      ensures i != null && old(input) != i ==> i.refs == old(i.refs) + 1
      ensures i != null && old(input) == i ==> i.refs == old(i.refs)
    {
      if input != null {
        input.refs := input.refs - 1;
      }
      input := i;
      if input != null {
        input.refs := input.refs + 1;
      }
    }

    /** Bin::set_video: the video the bin draws into, the caller's own. */
    method SetVideo(v: Video?)
      requires Valid() && (v == null || (v != privvid && v != actmorphvideo))
      modifies this`actvideo
      ensures Valid() && actvideo == v
    {
      actvideo := v;
    }

    /** Bin::set_supported_depth. */
    method SetSupportedDepth(flag: Mask)
      modifies this`depthflag
      ensures depthflag == flag
    {
      depthflag := flag;
    }

    /** Bin::set_preferred_depth. */
    method SetPreferredDepth(pref: BinDepth)
      modifies this`depthpreferred
      ensures depthpreferred == pref
    {
      depthpreferred := pref;
    }

    /** Bin::use_morph. */
    method UseMorph(use: bool)
      modifies this`useMorph
      ensures useMorph == use
    {
      useMorph := use;
    }

    /** Bin::switch_set_time. */
    method SwitchSetTime(t: Time)
      modifies this`morphtime
      ensures morphtime == t
    {
      morphtime := t;
    }

    /** Bin::set_morph, with made the morph visual_morph_new created (holding
        its one reference). A morph whose plugin is missing is kept; one that
        cannot draw the bin's video depth is released again. */
    method SetMorph(made: Morph)
      requires made != morph
      requires made.hasPlugin ==> actvideo != null
      modifies this`morph, Morphs(morph)`refs, made`refs
      ensures old(morph) != null ==> old(morph).refs == old(morph.refs) - 1
      ensures var rejected := made.hasPlugin && !Supported(made.supportedDepths, actvideo.depth);
              morph == (if rejected then null else made) &&
              made.refs == old(made.refs) - (if rejected then 1 else 0)
    {
      if morph != null {
        morph.refs := morph.refs - 1;
      }
      morph := made;
      if !made.hasPlugin {
        return;
      }
      var flag := made.supportedDepths;
      if !Supported(flag, actvideo.depth) {
        made.refs := made.refs - 1;
        morph := null;
        return;
      }
    }

    /** Bin::set_depth: depthold always takes the current depth; an unsupported
        depth changes nothing else; a supported one becomes the depth (and the
        video's), raises depthchanged when it differs (never clearing it), and
        sets depthfromGL when leaving GL. */
    method SetDepth(d: Depth)
      modifies this`depthold, this`depth, this`depthchanged, this`depthfromGL, Videos(actvideo)`depth
      ensures DepthSetTo(d)
      ensures actvideo != null ==> actvideo.depth == if Supported(depthflag, d) then d else old(actvideo.depth)
    {
      depthold := depth;
      if !Supported(depthflag, d) {
        return;
      }
      if depth != d {
        depthchanged := true;
      }
      if depth == GL && depthchanged {
        depthfromGL := true;
      } else {
        depthfromGL := false;
      }
      depth := d;
      if actvideo != null {
        actvideo.SetDepth(d);
      }
    }

    /** Bin::depth_changed: read and clear the flag. */
    method DepthChanged() returns (r: bool)
      modifies this`depthchanged
      ensures r == old(depthchanged) && !depthchanged
    {
      if !depthchanged {
        return false;
      }
      depthchanged := false;
      return true;
    }

    /** The depth connect asks for: GL only for a GL-only actor, otherwise the
        suitable depth of what the actor supports. */
    function ConnectDepth(flag: Mask): Depth
      reads this
    {
      if flag == OnlyGL then GL else SuitableDepth(depthpreferred, flag)
    }

    /** Bin::connect: refuse a missing actor or input without touching
        anything; otherwise hold both, set the depth for the actor, and force
        the main actor to the depth the bin ends up in. */
    method Connect(a: Actor?, i: Input?) returns (ok: bool)
      modifies this`actor, this`input, this`depthold, this`depth, this`depthchanged, this`depthfromGL
      modifies this`depthforcedmain, Actors(actor)`refs, Actors(a)`refs, Inputs(input)`refs, Inputs(i)`refs
      modifies Videos(actvideo)`depth
      ensures ok == (a != null && i != null)
      ensures !ok ==> unchanged(this) && unchanged(Actors(old(actor)), Actors(a), Inputs(old(input)), Inputs(i))
      ensures !ok ==> unchanged(Videos(actvideo))
      ensures ok ==> actor == a && input == i && depthforcedmain == depth
      ensures ok ==> DepthSetTo(old(ConnectDepth(a.supportedDepths)))
      ensures ok && actvideo != null ==>
                actvideo.depth == if Supported(depthflag, old(ConnectDepth(a.supportedDepths))) then depth else old(actvideo.depth)
      ensures ok && old(actor) != a && old(actor) != null ==> old(actor).refs == old(actor.refs) - 1
      ensures ok && old(actor) != a ==> a.refs == old(a.refs) + 1
      ensures ok && old(input) != i && old(input) != null ==> old(input).refs == old(input.refs) - 1
      ensures ok && old(input) != i ==> i.refs == old(i.refs) + 1
    {
      if a == null || i == null {
        return false;
      }
      SetActor(a);
      SetInput(i);
      var flag := a.supportedDepths;
      SetDepth(if flag == OnlyGL then GL else SuitableDepth(depthpreferred, flag));
      depthforcedmain := depth;
      return true;
    }

    /** Bin::connect by name, with made and madeInput what visual_actor_new and
        visual_input_new returned. */
    method ConnectByName(made: Actor?, madeInput: Input?) returns (ok: bool)
      modifies this`actor, this`input, this`depthold, this`depth, this`depthchanged, this`depthfromGL
      modifies this`depthforcedmain, Actors(actor)`refs, Actors(made)`refs, Inputs(input)`refs
      modifies Inputs(madeInput)`refs, Videos(actvideo)`depth
      ensures ok == (made != null && madeInput != null)
      ensures !ok ==> unchanged(this) && unchanged(Actors(old(actor)), Actors(made), Inputs(old(input)), Inputs(madeInput))
      ensures !ok ==> unchanged(Videos(actvideo))
      ensures ok ==> actor == made && input == madeInput && depthforcedmain == depth
      ensures ok ==> DepthSetTo(old(ConnectDepth(made.supportedDepths)))
      ensures ok && actvideo != null ==>
                actvideo.depth == if Supported(depthflag, old(ConnectDepth(made.supportedDepths))) then depth else old(actvideo.depth)
      ensures ok && old(actor) != made && old(actor) != null ==> old(actor).refs == old(actor.refs) - 1
      ensures ok && old(actor) != made ==> made.refs == old(made.refs) + 1
      ensures ok && old(input) != madeInput && old(input) != null ==> old(input).refs == old(input.refs) - 1
      ensures ok && old(input) != madeInput ==> madeInput.refs == old(madeInput.refs) + 1
    {
      if made == null {
        return false;
      }
      if madeInput == null {
        return false;
      }
      ok := Connect(made, madeInput);
    }

    /** Bin::connect by name with the references visual_actor_new and
        visual_input_new hand back dropped once connect holds its own, and the
        new actor dropped when the input cannot be created: the bin is then the
        only holder of both plugins. */
    method ConnectByNameReleasing(made: Actor?, madeInput: Input?) returns (ok: bool)
      modifies this`actor, this`input, this`depthold, this`depth, this`depthchanged, this`depthfromGL
      modifies this`depthforcedmain, Actors(actor)`refs, Actors(made)`refs, Inputs(input)`refs
      modifies Inputs(madeInput)`refs, Videos(actvideo)`depth
      ensures ok == (made != null && madeInput != null)
      ensures !ok ==> unchanged(this) && unchanged(Inputs(old(input)), Inputs(madeInput), Videos(actvideo))
      ensures !ok && old(actor) != made ==> unchanged(Actors(old(actor)))
      ensures !ok && made != null ==> made.refs == old(made.refs) - 1
      ensures ok ==> actor == made && input == madeInput && depthforcedmain == depth
      ensures ok ==> DepthSetTo(old(ConnectDepth(made.supportedDepths)))
      ensures ok && old(actor) != made && old(actor) != null ==> old(actor).refs == old(actor.refs) - 1
      ensures ok && old(actor) != made ==> made.refs == old(made.refs)
      ensures ok && old(input) != madeInput && old(input) != null ==> old(input).refs == old(input.refs) - 1
      ensures ok && old(input) != madeInput ==> madeInput.refs == old(madeInput.refs)
    {
      if made == null {
        return false;
      }
      if madeInput == null {
        made.refs := made.refs - 1;
        return false;
      }
      ok := Connect(made, madeInput);
      made.refs := made.refs - 1;
      madeInput.refs := madeInput.refs - 1;
    }

    /** Bin::get_palette, as the object whose palette it returns: the morph's
        during a switch, the actor's otherwise. */
    function PaletteOwner(): (r: PaletteSource)
      reads this
      ensures r.FromMorph? <==> morphing
    {
      if morphing then FromMorph(morph) else FromActor(actor)
    }
    /** visual_actor_realize: the call, and the plugin marked realized. */
    method RealizeActor(a: Actor?)
      modifies this`log, Actors(a)`realized
      ensures log == old(log) + [ActorRealized(a)]
      ensures a != null ==> a.realized == (old(a.realized) || a.hasPlugin)
    {
      log := log + [ActorRealized(a)];
      if a != null && a.hasPlugin {
        a.realized := true;
      }
    }

    /** Whether switch_actor(a) gives the main actor a private video for the
        morph to read: morphing is on, neither actor draws GL, and the bin is
        not on its way out of GL. */
    predicate Blends(a: Actor)
      requires actor != null && actor.video != null && a.video != null
      reads this, actor, actor.video, a, a.video
    {
      useMorph && actor.video.depth != GL && a.video.depth != GL && !depthfromGL
    }

    /** The blending half of switch_actor (lines 540-578): start a loaded
        morph on the bin's video and move the main actor to a fresh private
        copy of that video, holding its pixels, or zeros when it has none. */
    method StartPrivate()
      requires actor != null && actvideo != null
      modifies this`privvid, this`log, actor`video
      ensures fresh(privvid) && actor.video == privvid
      ensures privvid.depth == actvideo.depth && privvid.width == actvideo.width
      ensures privvid.height == actvideo.height && privvid.pitch == actvideo.pitch
      ensures privvid.pixels == if actvideo.pixels.Some? then actvideo.pixels else Some(Zeros(privvid.Size()))
      ensures log == old(log) + if morph != null && morph.hasPlugin then [MorphStarted(morph, actvideo, morphtime)] else []
    {
      if morph != null && morph.hasPlugin {
        log := log + [MorphStarted(morph, actvideo, morphtime)];
      }
      var pv := new Video();
      pv.CopyAttrs(actvideo);
      pv.AllocateBuffer();
      if actvideo.pixels.Some? && pv.pixels.Some? {
        pv.pixels := actvideo.pixels;
      } else if pv.pixels.Some? {
        pv.pixels := Some(Zeros(pv.Size()));
      }
      actor.video := pv;
      privvid := pv;
    }

    /** The direct half of switch_actor (lines 580-584): clear the bin's video
        unless the main actor draws GL. */
    method ClearVideo()
      requires actor != null && actor.video != null && actvideo != null
      modifies actvideo`pixels
      ensures actvideo.pixels == if old(actor.video.depth) != GL && old(actvideo.pixels).Some?
                                 then Some(Zeros(|old(actvideo.pixels).value|)) else old(actvideo.pixels)
    {
      if actor.video.depth != GL && actvideo.pixels.Some? {
        actvideo.pixels := Some(Zeros(|actvideo.pixels.value|));
      }
    }

    /** The state switch_actor(VisActor*) leaves once the switch has started,
        given whether it blends, the main actor's video mv and the bin's
        pixels px before it, and the log log0 it started from: when blending,
        the main actor draws into a private copy of the bin's video holding
        its pixels (zeros when it has none) and a loaded morph is started;
        otherwise there is no private video, the main actor keeps mv and the
        bin's pixels are cleared unless mv is GL. */
    predicate Started(blend: bool, mv: Video?, px: Option<seq<bv8>>, log0: seq<Event>)
      reads this, Videos(privvid), Videos(actvideo), Actors(actor), Morphs(morph), Videos(mv)
    {
      && actor != null && actvideo != null
      && if blend then
           && privvid != null && actor.video == privvid && actvideo.pixels == px
           && privvid.depth == actvideo.depth && privvid.width == actvideo.width
           && privvid.height == actvideo.height && privvid.pitch == actvideo.pitch
           && privvid.pixels == (if px.Some? then px else Some(Zeros(privvid.Size())))
           && log == log0 + (if morph != null && morph.hasPlugin then [MorphStarted(morph, actvideo, morphtime)] else [])
         else
           && privvid == null && actor.video == mv && log == log0
           && actvideo.pixels == (if mv != null && mv.depth != GL && px.Some? then Some(Zeros(|px.value|)) else px)
    }

    /** Bin::switch_actor(actor): a becomes the pending actor and the switch
        starts, blending through a private video or directly. A null actor
        changes nothing. */
    method SwitchActor(a: Actor?)
      requires Separate()
      requires a != null ==> actor != null && actor.video != null && a.video != null && actvideo != null
      modifies this`actmorph, this`privvid, this`morphing, this`log, Videos(actvideo)`pixels, Actors(actor)`video
      ensures a == null ==> unchanged(this) && unchanged(Videos(actvideo)) && unchanged(Actors(actor))
      ensures a != null ==> Valid() && actmorph == a && morphing
      ensures a != null ==> (privvid != null <==> old(Blends(a)))
      ensures a != null ==> Started(old(Blends(a)), old(actor.video), old(actvideo.pixels), old(log))
      ensures a != null && old(Blends(a)) ==> fresh(privvid) && unchanged(actvideo)
    {
      if a == null {
        return;
      }
      actmorph := a;
      privvid := null;
      if useMorph && actor.video.depth != GL && actmorph.video.depth != GL && !depthfromGL {
        StartPrivate();
      } else {
        ClearVideo();
      }
      morphing := true;
    }
    /** Lines 423-436 of switch_actor(name), for a GL actor with video v:
        everything is forced to GL, and a depth change is flagged even when the
        bin cannot take GL. */
    twostate predicate GLSwitchDepths(new v: Video)
      requires old(actvideo) != null && actvideo == old(actvideo)
      reads this`depthforced, this`depthforcedmain, this`depthold, this`depth, this`depthchanged
      reads this`depthfromGL, this`depthflag, this`actvideo, v`depth, actvideo`depth
    {
      && depthforced == GL && depthforcedmain == GL && v.depth == GL && depthchanged
      && depthold == old(depth) && depth == (if Supported(depthflag, GL) then GL else old(depth))
      && depthfromGL == (if Supported(depthflag, GL) then old(depth) == GL && old(depthchanged) else old(depthfromGL))
      && actvideo.depth == (if Supported(depthflag, GL) then GL else old(actvideo.depth))
    }

    /** Lines 455-496 of switch_actor(name), for a software actor whose
        suitable depth is nd, with video v: when morphing is on and the bin's
        video is deeper, the bin keeps that depth and v is upgraded to it;
        otherwise the bin takes nd, unless its video is GL, when only the forced
        depths change. depthforced is nd in every case. */
    twostate predicate SoftSwitchDepths(nd: Depth, new v: Video)
      requires old(actvideo) != null && actvideo == old(actvideo)
      reads this`depthforced, this`depthforcedmain, this`depthold, this`depth, this`depthchanged
      reads this`depthfromGL, this`depthflag, this`useMorph, this`actvideo, v`depth, actvideo`depth
    {
      var cur := old(actvideo.depth);
      && depthforced == nd
      && (Value(cur) > Value(nd) && cur != GL && useMorph ==>
            depthforcedmain == old(depth) && DepthSetTo(cur) && v.depth == cur && actvideo.depth == cur)
      && (!(Value(cur) > Value(nd) && useMorph) && cur != GL ==>
            depthforcedmain == old(depth) && DepthSetTo(nd) && v.depth == nd &&
            actvideo.depth == if Supported(depthflag, nd) then nd else cur)
      && (cur == GL ==>
            depthforcedmain == nd && v.depth == nd && actvideo.depth == GL &&
            depthold == old(depthold) && depth == old(depth) &&
            depthchanged == old(depthchanged) && depthfromGL == old(depthfromGL))
    }

    /** What switch_actor(name) settles for a new actor supporting flag, with
        v the video made for it: the GL case keeps the attributes copied from
        the bin's video and no buffer; a software actor's video gets the pitch
        of its width times the bytes per pixel of the suitable depth, and a
        fresh buffer. */
    twostate predicate SwitchDepths(flag: Mask, new v: Video)
      requires old(actvideo) != null && actvideo == old(actvideo)
      reads this`depthforced, this`depthforcedmain, this`depthold, this`depth, this`depthchanged
      reads this`depthfromGL, this`depthflag, this`depthpreferred, this`useMorph, this`actvideo
      reads v`depth, v`pitch, v`pixels, v`width, v`height, actvideo`depth, actvideo`pitch
    {
      if Supported(flag, GL) then
        GLSwitchDepths(v) && v.pitch == actvideo.pitch && v.pixels == None
      else
        var nd := SuitableDepth(depthpreferred, flag);
        SoftSwitchDepths(nd, v) && v.pitch == v.width * Bpp(nd) && v.pixels == Some(Zeros(v.Size()))
    }

    /** Lines 423-436 of switch_actor(name). */
    method ForceGLSwitch(v: Video)
      requires actvideo != null && v != actvideo
      modifies this`depthforced, this`depthforcedmain, this`depthold, this`depth, this`depthchanged
      modifies this`depthfromGL, actvideo`depth, v`depth
      ensures GLSwitchDepths(v)
    {
      depthforced := GL;
      depthforcedmain := GL;
      v.SetDepth(GL);
      SetDepth(GL);
      depthchanged := true;
    }

    /** Lines 440-496 of switch_actor(name): v takes the suitable depth nd,
        the actor is renegotiated when its forced depth is not the bin's
        video's, and the depths are forced. */
    method ForceSoftSwitch(nd: Depth, v: Video)
      requires actvideo != null && v != actvideo
      modifies this`depthforced, this`depthforcedmain, this`depthold, this`depth, this`depthchanged
      modifies this`depthfromGL, this`log, actvideo`depth, v`depth
      ensures SoftSwitchDepths(nd, v)
      ensures log == old(log) + if old(depthforcedmain) == old(actvideo.depth) then []
                                else [ActorNegotiated(actor, old(depthforcedmain), true)]
    {
      v.SetDepth(nd);
      if depthforcedmain != actvideo.depth {
        log := log + [ActorNegotiated(actor, depthforcedmain, true)];
      }
      if Value(actvideo.depth) > Value(v.depth) && actvideo.depth != GL && useMorph {
        depthforced := nd;
        depthforcedmain := depth;
        SetDepth(actvideo.depth);
        v.SetDepth(actvideo.depth);
      } else if actvideo.depth != GL {
        depthforced := v.depth;
        depthforcedmain := depth;
        SetDepth(v.depth);
      } else {
        depthforced := v.depth;
        depthforcedmain := v.depth;
      }
    }

    /** Lines 436-503 of switch_actor(name): a software actor supporting flag,
        whose video gets a pitch for the suitable depth and a buffer. */
    method SoftSwitch(flag: Mask, v: Video)
      requires actvideo != null && v != actvideo
      modifies this`depthforced, this`depthforcedmain, this`depthold, this`depth, this`depthchanged
      modifies this`depthfromGL, this`log, actvideo`depth, v`depth, v`pitch, v`pixels
      ensures var nd := SuitableDepth(depthpreferred, flag);
              SoftSwitchDepths(nd, v) && v.pitch == v.width * Bpp(nd) && v.pixels == Some(Zeros(v.Size()))
      ensures log == old(log) + if old(depthforcedmain) == old(actvideo.depth) then []
                                else [ActorNegotiated(actor, old(depthforcedmain), true)]
    {
      var newdepth := SuitableDepth(depthpreferred, flag);
      ForceSoftSwitch(newdepth, v);
      v.SetPitch(v.width * Bpp(newdepth));
      v.AllocateBuffer();
    }

    /** Lines 417-503 of switch_actor(name): the video for a new actor
        supporting flag, a copy of the bin's video's attributes, with the
        depths settled. */
    function SwitchNegotiation(flag: Mask): seq<Event>
      requires actvideo != null
      reads this`actvideo, this`actor, this`depthforcedmain, actvideo`depth
    {
      if Supported(flag, GL) || depthforcedmain == actvideo.depth then []
      else [ActorNegotiated(actor, depthforcedmain, true)]
    }

    method NewSwitchVideo(flag: Mask) returns (v: Video)
      requires actvideo != null
      modifies this`depthforced, this`depthforcedmain, this`depthold, this`depth, this`depthchanged
      modifies this`depthfromGL, this`log, actvideo`depth
      ensures fresh(v) && SwitchDepths(flag, v)
      ensures v.width == actvideo.width && v.height == actvideo.height
      ensures log == old(log) + old(SwitchNegotiation(flag))
    {
      v := new Video();
      v.CopyAttrs(actvideo);
      if Supported(flag, GL) {
        ForceGLSwitch(v);
      } else {
        SoftSwitch(flag, v);
      }
    }

    /** Lines 509-514 of switch_actor(name): hand the new actor its video and
        start the switch to it, blending exactly when morphing is on, neither
        the main actor's video nor v is GL, and no change away from GL is
        pending. */
    method AttachAndSwitch(made: Actor, v: Video)
      requires Valid() && actmorphvideo == null && v != actvideo && v != privvid
      requires actor != null && actor.video != null && actvideo != null && made != actor
      modifies this`actmorphvideo, this`actmorph, this`privvid, this`morphing, this`log
      modifies made`video, actvideo`pixels, actor`video
      ensures Valid() && actmorph == made && morphing && actmorphvideo == v && made.video == v
      ensures privvid != null <==> useMorph && !depthfromGL && v.depth != GL && old(actor.video).depth != GL
      ensures unchanged(v) && unchanged(actvideo`depth, actvideo`pitch, actvideo`width, actvideo`height)
      ensures unchanged(this`depthforced, this`depthforcedmain, this`depthold, this`depth, this`depthchanged)
      ensures unchanged(this`depthfromGL, this`depthflag, this`depthpreferred, this`useMorph, this`actvideo)
      ensures Started(privvid != null, old(actor.video), old(actvideo.pixels), old(log))
      ensures privvid != null ==> fresh(privvid)
    {
      made.video := v;
      actmorphvideo := v;
      SwitchActor(made);
    }

    /** Lines 417-514 of switch_actor(name), once the new actor exists: give it
        a video with the bin's video's attributes, settle the depths, and start
        the switch to it. */
    method SwitchToNew(made: Actor)
      requires Valid() && actmorphvideo == null
      requires actor != null && actor.video != null && actvideo != null && made != actor
      modifies this`depthforced, this`depthforcedmain, this`depthold, this`depth, this`depthchanged
      modifies this`depthfromGL, this`log, this`actmorphvideo, this`actmorph, this`privvid, this`morphing
      modifies made`video, actvideo`depth, actvideo`pixels, actor`video
      ensures Valid() && actmorph == made && morphing
      ensures fresh(actmorphvideo) && made.video == actmorphvideo
      ensures SwitchDepths(made.supportedDepths, actmorphvideo)
      ensures actmorphvideo.width == actvideo.width && actmorphvideo.height == actvideo.height
      ensures privvid != null <==>
                useMorph && !depthfromGL && actmorphvideo.depth != GL && old(actor.video).depth != GL
      ensures Started(privvid != null, old(actor.video), old(actvideo.pixels),
                      old(log) + old(SwitchNegotiation(made.supportedDepths)))
      ensures privvid != null ==> fresh(privvid)
    {
      var video := NewSwitchVideo(made.supportedDepths);
      AttachAndSwitch(made, video);
    }

    /** Bin::switch_actor(name), with made what visual_actor_new returned, and
        the creation checked before the pending actor is released: a name that
        yields no actor leaves the bin as it was. */
    method SwitchActorByName(made: Actor?)
      requires Valid() && actor != null && actor.video != null && actvideo != null
      requires made != null ==> made != actor && made != actmorph
      modifies this`depthforced, this`depthforcedmain, this`depthold, this`depth, this`depthchanged
      modifies this`depthfromGL, this`log, this`actmorphvideo, this`actmorph, this`privvid, this`morphing
      modifies Actors(made)`video, actvideo`depth, actvideo`pixels, actor`video, Actors(actmorph)`refs
      ensures made == null ==> unchanged(this) && unchanged(actvideo, actor) && unchanged(Actors(actmorph))
      ensures made != null && old(actmorph) != null ==> old(actmorph).refs == old(actmorph.refs) - 1
      ensures made != null ==> Valid() && actmorph == made && morphing
      ensures made != null ==> fresh(actmorphvideo) && made.video == actmorphvideo
      ensures made != null ==> SwitchDepths(made.supportedDepths, actmorphvideo)
      ensures made != null ==> (privvid != null <==>
                useMorph && !depthfromGL && actmorphvideo.depth != GL && old(actor.video).depth != GL)
      ensures made != null ==> Started(privvid != null, old(actor.video), old(actvideo.pixels),
                                       old(log) + old(SwitchNegotiation(made.supportedDepths)))
      ensures made != null && privvid != null ==> fresh(privvid)
    {
      if made == null {
        return;
      }
      if actmorph != null {
        actmorph.refs := actmorph.refs - 1;
        actmorphvideo := null;
      }
      SwitchToNew(made);
    }

    /** Bin::switch_actor(name) as the source orders it: the pending actor is
        released before the new one is known to exist, so when creation fails
        the bin still holds, and will go on running, an actor whose reference
        it has dropped. */
    method SwitchActorByNameAsWritten(made: Actor?)
      requires Valid() && actor != null && actor.video != null && actvideo != null
      requires made != null ==> made != actor && made != actmorph
      modifies this`depthforced, this`depthforcedmain, this`depthold, this`depth, this`depthchanged
      modifies this`depthfromGL, this`log, this`actmorphvideo, this`actmorph, this`privvid, this`morphing
      modifies Actors(made)`video, actvideo`depth, actvideo`pixels, actor`video, Actors(actmorph)`refs
      ensures old(actmorph) != null ==> old(actmorph).refs == old(actmorph.refs) - 1
      ensures made == null ==> Valid() && actmorph == old(actmorph) && morphing == old(morphing) && actmorphvideo == null
      ensures made == null ==>
                && unchanged(this`depthforced, this`depthforcedmain, this`depthold, this`depth, this`depthchanged)
                && unchanged(this`depthfromGL, this`log, this`privvid, this`actor)
                && unchanged(actvideo) && unchanged(actor`video)
      ensures made != null ==> Valid() && actmorph == made && morphing
      ensures made != null ==> fresh(actmorphvideo) && made.video == actmorphvideo
      ensures made != null ==> SwitchDepths(made.supportedDepths, actmorphvideo)
      ensures made != null ==> (privvid != null <==>
                useMorph && !depthfromGL && actmorphvideo.depth != GL && old(actor.video).depth != GL)
      ensures made != null ==> Started(privvid != null, old(actor.video), old(actvideo.pixels),
                                       old(log) + old(SwitchNegotiation(made.supportedDepths)))
      ensures made != null && privvid != null ==> fresh(privvid)
    {
      if actmorph != null {
        actmorph.refs := actmorph.refs - 1;
        actmorphvideo := null;
      }
      if made == null {
        return;
      }
      SwitchToNew(made);
    }

    /** The renegotiation switch_finalize ends with: the actor at its forced
        depth, announced, when a depth change is pending. */
    function Renegotiation(): seq<Event>
      reads this`depthchanged, this`actor, this`depthforcedmain
    {
      if depthchanged then [ActorNegotiated(actor, depthforcedmain, true)] else []
    }

    /** Lines 595-622 of switch_finalize: the pending actor becomes the actor,
        drawing into the bin's video, the morph is released and the switch state
        cleared; the old actor's reference is kept (its release is commented
        out). */
    method FinishSwitch()
      requires Valid() && actmorph != null && actvideo != null
      modifies this`actmorphvideo, this`privvid, this`actor, this`actmorph, this`morphing, this`morph
      modifies actmorph`video, Morphs(morph)`refs
      ensures Valid() && Finalized() && actor.video == actvideo
      ensures old(morph) != null ==> old(morph).refs == old(morph.refs) - 1
    {
      actmorphvideo := null;
      if privvid != null {
        privvid := null;
      }
      actor := actmorph;
      actmorph := null;
      actor.video := actvideo;
      morphing := false;
      if morph != null {
        morph.refs := morph.refs - 1;
        morph := null;
      }
    }

    /** Lines 624-639 of switch_finalize: the bin's video and the bin take the
        actor's suitable depth, and the actor is renegotiated when a depth
        change is pending. */
    method RenegotiateActor()
      requires actor != null && actvideo != null
      modifies this`depthold, this`depth, this`depthchanged, this`depthfromGL, this`depthforcedmain, this`log
      modifies actvideo`depth
      ensures var sd := SuitableDepth(depthpreferred, actor.supportedDepths);
              actvideo.depth == sd && depthforcedmain == sd && DepthSetTo(sd)
      ensures log == old(log) + Renegotiation()
    {
      var flag := actor.supportedDepths;
      actvideo.SetDepth(SuitableDepth(depthpreferred, flag));
      SetDepth(actvideo.depth);
      depthforcedmain := actvideo.depth;
      if depthchanged {
        log := log + [ActorNegotiated(actor, depthforcedmain, true)];
      }
    }

    /** The state switch_finalize leaves, from the state the enclosing call
        started in (m the morph it started with): Finalized, the new actor
        drawing into the bin's video, the morph's reference dropped, and the
        bin's video and depth set to the actor's suitable depth. */
    twostate predicate Ended(m: Morph?)
      reads this, Actors(actor), Videos(actvideo)`depth, Morphs(m)`refs
    {
      && Finalized() && actor != null && actvideo != null && actor.video == actvideo
      && (m != null ==> m.refs == old(m.refs) - 1)
      && var sd := SuitableDepth(depthpreferred, actor.supportedDepths);
         actvideo.depth == sd && depthforcedmain == sd && DepthSetTo(sd)
    }

    /** Nothing of the switch, the depths or the pending actor's video
        changed: the call ended without switch_finalize. */
    twostate predicate Kept()
      reads this, Actors(actmorph)`video, Morphs(morph)`refs, Videos(actvideo)`depth
    {
      && actor == old(actor) && actmorph == old(actmorph) && morphing == old(morphing) && morph == old(morph)
      && actmorphvideo == old(actmorphvideo) && privvid == old(privvid) && actvideo == old(actvideo)
      && depthold == old(depthold) && depth == old(depth) && depthchanged == old(depthchanged)
      && depthfromGL == old(depthfromGL) && depthforcedmain == old(depthforcedmain)
      && (actmorph != null ==> actmorph.video == old(actmorph.video))
      && (morph != null ==> morph.refs == old(morph.refs))
      && (actvideo != null ==> actvideo.depth == old(actvideo.depth))
    }

    /** Bin::switch_finalize: complete the switch to the pending actor. */
    method SwitchFinalize()
      requires Valid() && actmorph != null && actvideo != null
      modifies this`actmorphvideo, this`privvid, this`actor, this`actmorph, this`morphing, this`morph
      modifies this`depthold, this`depth, this`depthchanged, this`depthfromGL, this`depthforcedmain, this`log
      modifies actmorph`video, Morphs(morph)`refs, actvideo`depth
      ensures Valid() && Finalized() && actor.video == actvideo
      ensures old(morph) != null ==> old(morph).refs == old(morph.refs) - 1
      ensures var sd := SuitableDepth(depthpreferred, actor.supportedDepths);
              actvideo.depth == sd && depthforcedmain == sd && DepthSetTo(sd)
      ensures log == old(log) + Renegotiation()
      ensures Ended(old(morph))
    {
      FinishSwitch();
      RenegotiateActor();
    }

    /** Whether sync draws the main actor into the private video: a switch
        is blending, the bin's video is not GL and no change away from GL is
        pending. */
    predicate SyncBlends()
      requires morphing && useMorph ==> actvideo != null
      reads this`morphing, this`useMorph, this`actvideo, this`depthfromGL, Videos(actvideo)`depth
    {
      morphing && useMorph && actvideo.depth != GL && !depthfromGL
    }

    /** Lines 256-291 of sync: choose the video the main actor draws into.
        When blending, the morph is pointed at the bin's video and the private
        video is rebuilt from the bin's video's attributes, with a fresh buffer
        unless the pending actor draws GL, in which case the main actor draws
        straight into the bin's video; otherwise that video is the bin's own.
        A missing video is returned as null. */
    method SyncVideo() returns (video: Video?)
      requires Valid() && (morphing && useMorph ==> actvideo != null)
      requires SyncBlends() && privvid != null ==> actmorph.video != null
      modifies this`log, Videos(privvid)
      ensures old(SyncBlends()) ==> log == old(log) + [MorphVideoSet(morph, actvideo)]
      ensures !old(SyncBlends()) ==> log == old(log) && unchanged(Videos(privvid)) && video == actvideo
      ensures old(SyncBlends()) && privvid == null ==> video == null
      ensures old(SyncBlends()) && privvid != null ==>
                && privvid.depth == actvideo.depth && privvid.width == actvideo.width
                && privvid.height == actvideo.height && privvid.pitch == actvideo.pitch
                && var pendingGL := old(actmorph.video) != privvid && old(actmorph.video.depth) == GL;
                   (pendingGL ==> video == actvideo && privvid.pixels == None) &&
                   (!pendingGL ==> video == privvid && privvid.pixels == Some(Zeros(privvid.Size())))
    {
      if morphing && useMorph && actvideo.depth != GL && !depthfromGL {
        log := log + [MorphVideoSet(morph, actvideo)];
        video := privvid;
        if video == null {
          return;
        }
        video.FreeBuffer();
        video.CopyAttrs(actvideo);
        if actmorph.video.depth == GL {
          video := actvideo;
        } else {
          video.AllocateBuffer();
        }
      } else {
        video := actvideo;
      }
    }

    /** Lines 310-331 of sync: rebuild the pending actor's video from the
        attributes of the video the main actor draws into, with a buffer
        unless the main actor draws GL, then realize and negotiate the pending
        actor at the forced depth. A missing video ends sync. */
    method SyncPending(video: Video)
      requires Valid() && morphing && video != actmorphvideo
      requires actmorphvideo != null ==> actor != null && actor.video == video
      modifies this`log, Videos(actmorphvideo), actmorph`realized
      ensures actmorphvideo == null ==> log == old(log) && unchanged(actmorph)
      ensures actmorphvideo != null ==>
                && actmorphvideo.depth == video.depth && actmorphvideo.width == video.width
                && actmorphvideo.height == video.height && actmorphvideo.pitch == video.pitch
                && actmorphvideo.pixels == (if video.depth != GL then Some(Zeros(actmorphvideo.Size())) else None)
                && log == old(log) + [ActorRealized(actmorph), ActorNegotiated(actmorph, depthforced, false)]
                && actmorph.realized == (old(actmorph.realized) || actmorph.hasPlugin)
    {
      var av := actmorphvideo;
      if av == null {
        return;
      }
      av.FreeBuffer();
      av.CopyAttrs(video);
      if actor.video.depth != GL {
        av.AllocateBuffer();
      }
      RealizeActor(actmorph);
      log := log + [ActorNegotiated(actmorph, depthforced, false)];
    }

    /** Bin::sync: give the main actor its video and negotiate it at the
        depth forced for it (announcing the change unless noevent, and always
        after leaving GL), then, during a blending switch, rebuild and
        negotiate the pending actor's video. A missing video ends sync early. */
    method Sync(noevent: bool)
      requires Valid() && (morphing && useMorph ==> actvideo != null)
      requires SyncBlends() && privvid != null ==> actmorph.video != null
      requires morphing && useMorph && actmorphvideo != null ==> actor != null
      modifies this`log, Videos(privvid), Videos(actmorphvideo), Actors(actor)`video, Actors(actmorph)`realized
      ensures old(SyncBlends()) && privvid == null ==> log == old(log) + [MorphVideoSet(morph, actvideo)]
      ensures !(old(SyncBlends()) && privvid == null) && old(actvideo) == null ==> log == old(log)
      ensures var main := old(log) + (if old(SyncBlends()) then [MorphVideoSet(morph, actvideo)] else []) +
                          [ActorNegotiated(actor, depthforcedmain, depthold != GL && noevent)];
              !(old(SyncBlends()) && privvid == null) && actvideo != null ==>
                && (actor != null ==> actor.video == (if old(SyncBlends()) && !(old(actmorph.video) != privvid &&
                                                      old(actmorph.video.depth) == GL) then privvid else actvideo))
                && (!(morphing && useMorph) || actmorphvideo == null ==> log == main)
                && (morphing && useMorph && actmorphvideo != null ==>
                      log == main + [ActorRealized(actmorph), ActorNegotiated(actmorph, depthforced, false)])
      ensures Valid()
      ensures !old(SyncBlends()) ==> unchanged(Videos(privvid))
      ensures old(SyncBlends()) && privvid != null ==>
                && privvid.depth == actvideo.depth && privvid.width == actvideo.width
                && privvid.height == actvideo.height && privvid.pitch == actvideo.pitch
                && privvid.pixels == if old(actmorph.video) != privvid && old(actmorph.video.depth) == GL
                                     then None else Some(Zeros(privvid.Size()))
      ensures (old(SyncBlends()) && privvid == null) || (!old(SyncBlends()) && actvideo == null) ==>
                unchanged(Videos(actmorphvideo)) && unchanged(Actors(actor), Actors(actmorph))
      ensures !(old(SyncBlends()) && privvid == null) && actvideo != null &&
              (!(morphing && useMorph) || actmorphvideo == null) ==>
                unchanged(Videos(actmorphvideo)) && unchanged(Actors(actmorph)`realized)
      ensures !(old(SyncBlends()) && privvid == null) && actvideo != null && morphing && useMorph && actmorphvideo != null ==>
                && actor.video != null && actmorphvideo.depth == actor.video.depth
                && actmorphvideo.width == actor.video.width && actmorphvideo.height == actor.video.height
                && actmorphvideo.pitch == actor.video.pitch
                && actmorphvideo.pixels == (if actor.video.depth != GL then Some(Zeros(actmorphvideo.Size())) else None)
                && actmorph.realized == (old(actmorph.realized) || actmorph.hasPlugin)
    {
      var video := SyncVideo();
      if video == null {
        return;
      }
      SyncActors(video, noevent);
    }

    /** Lines 293-331 of sync, once video is known: the main actor takes it
        and is negotiated, then the pending actor of a blending switch is. */
    method SyncActors(video: Video, noevent: bool)
      requires Valid() && video != actmorphvideo
      requires morphing && useMorph && actmorphvideo != null ==> actor != null
      modifies this`log, Videos(actmorphvideo), Actors(actor)`video, Actors(actmorph)`realized
      ensures actor != null ==> actor.video == video
      ensures var main := old(log) + [ActorNegotiated(actor, depthforcedmain, depthold != GL && noevent)];
              && (!(morphing && useMorph) || actmorphvideo == null ==> log == main)
              && (morphing && useMorph && actmorphvideo != null ==>
                    log == main + [ActorRealized(actmorph), ActorNegotiated(actmorph, depthforced, false)])
      ensures !(morphing && useMorph) || actmorphvideo == null ==>
                unchanged(Videos(actmorphvideo)) && unchanged(Actors(actmorph)`realized)
      ensures morphing && useMorph && actmorphvideo != null ==>
                && actmorphvideo.depth == video.depth && actmorphvideo.width == video.width
                && actmorphvideo.height == video.height && actmorphvideo.pitch == video.pitch
                && actmorphvideo.pixels == (if video.depth != GL then Some(Zeros(actmorphvideo.Size())) else None)
                && actmorph.realized == (old(actmorph.realized) || actmorph.hasPlugin)
    {
      if actor != null {
        actor.video := video;
      }
      if depthold == GL {
        log := log + [ActorNegotiated(actor, depthforcedmain, false)];
      } else {
        log := log + [ActorNegotiated(actor, depthforcedmain, noevent)];
      }
      if morphing && useMorph {
        SyncPending(video);
      }
    }

    /** Lines 662-682 of run, during a switch: realize and negotiate, at the
        forced depth, whichever of the pending and the main actor is not yet
        realized, stopping at the first without a plugin; ready says that both
        have one. */
    method PrepareSwitch() returns (ready: bool)
      requires Valid() && morphing && actor != null
      modifies this`log, actor`realized, actmorph`realized
      ensures ready == (old(actmorph.hasPlugin) && old(actor.hasPlugin))
      ensures !old(actmorph.hasPlugin) ==> log == old(log) && unchanged(actor, actmorph)
      ensures old(actmorph.hasPlugin) ==> actmorph.realized
      ensures old(actmorph.hasPlugin) && !old(actor.hasPlugin) ==>
                log == old(log) + Prepared(actmorph, actmorph, old(actmorph.realized), true, depthforced)
      ensures ready ==>
                actor.realized && log == old(log) + Prepared(actmorph, actor, old(actmorph.realized), old(actor.realized), depthforced)
      ensures actmorph.realized == (old(actmorph.realized) || old(actmorph.hasPlugin))
      ensures actor.realized == (old(actor.realized) || ready)
    {
      if !actmorph.hasPlugin {
        return false;
      }
      if !actmorph.realized {
        RealizeActor(actmorph);
        log := log + [ActorNegotiated(actmorph, depthforced, false)];
      }
      if !actor.hasPlugin {
        return false;
      }
      if !actor.realized {
        RealizeActor(actor);
        log := log + [ActorNegotiated(actor, depthforced, false)];
      }
      return true;
    }

    /** Lines 662-692 of run, during a switch: prepare both actors, then
        finalize a direct switch (morphing off, or a GL main actor). go says
        whether run goes on to run the actors; it stops when an actor has no
        plugin, the main actor has no video, or the switch was direct. */
    method RunSwitchStart() returns (go: bool)
      requires Valid() && morphing && actor != null && actvideo != null
      modifies this`log, this`actmorphvideo, this`privvid, this`actor, this`actmorph, this`morphing, this`morph
      modifies this`depthold, this`depth, this`depthchanged, this`depthfromGL, this`depthforcedmain
      modifies actor`realized, actmorph`realized, actmorph`video, Morphs(morph)`refs, actvideo`depth
      ensures Valid()
      ensures var ready := old(actmorph.hasPlugin) && old(actor.hasPlugin);
              var pre := old(log) + Prepared(old(actmorph), old(actor), old(actmorph.realized), old(actor.realized), depthforced);
              var direct := ready && old(actor.video) != null && (!useMorph || old(actor.video.depth) == GL);
              && (go <==> ready && old(actor.video) != null && !direct)
              && old(actmorph).realized == (old(actmorph.realized) || old(actmorph.hasPlugin))
              && old(actor).realized == (old(actor.realized) || ready)
              && (!direct ==> Kept() && morphing)
              && (go ==> actor.video == old(actor.video) && actor.video.depth == old(actor.video.depth))
              && (go ==> actmorph.video == old(actmorph.video) &&
                         (actmorph.video != null ==> actmorph.video.depth == old(actmorph.video.depth)))
              && (ready && !direct ==> log == pre)
              && (direct ==> Ended(old(morph)) && log == pre + Renegotiation())
              && (!ready ==> log == old(log) + if old(actmorph.hasPlugin)
                               then Prepared(old(actmorph), old(actmorph), old(actmorph.realized), true, depthforced) else [])
    {
      var ready := PrepareSwitch();
      if !ready {
        return false;
      }
      if actor.video == null {
        return false;
      }
      if !useMorph || actor.video.depth == GL {
        SwitchFinalize();
        return false;
      }
      return true;
    }

    /** Lines 698-724 of run, during a switch, once the main actor has run:
        when both actors have videos, morphing is on and neither draws GL, the
        pending actor runs too; with no morph plugin the switch is then
        finalized, otherwise the morph is realized and run from the main
        actor's video to the pending actor's, and the switch is finalized once
        the morph reports it is done. In every other case the switch waits. */
    method RunMorph()
      requires Valid() && morphing && actor != null && actvideo != null
      modifies this`log, this`actmorphvideo, this`privvid, this`actor, this`actmorph, this`morphing, this`morph
      modifies this`depthold, this`depth, this`depthchanged, this`depthfromGL, this`depthforcedmain
      modifies actmorph`video, Morphs(morph)`refs, actvideo`depth
      ensures Valid()
      ensures var blend := old(actmorph.video) != null && old(actor.video) != null && useMorph &&
                           old(actmorph.video.depth) != GL && old(actor.video.depth) != GL;
              && (!blend ==> unchanged(this) && unchanged(Actors(old(actmorph)), Morphs(old(morph)), actvideo))
              && (blend && (old(morph) == null || !old(morph.hasPlugin)) ==>
                    Ended(old(morph)) && log == old(log) + [ActorRan(old(actmorph))] + Renegotiation())
              && (blend && old(morph) != null && old(morph.hasPlugin) ==>
                    var ran := old(log) + [ActorRan(old(actmorph)), MorphRealized(old(morph)),
                                           MorphRan(old(morph), old(actor.video), old(actmorph.video))];
                    && (old(morph.done) ==> Ended(old(morph)) && log == ran + Renegotiation())
                    && (!old(morph.done) ==> log == ran && Kept()))
    {
      if actmorph.video == null || actor.video == null {
        return;
      }
      if useMorph && actmorph.video.depth != GL && actor.video.depth != GL {
        log := log + [ActorRan(actmorph)];
        if morph == null || !morph.hasPlugin {
          SwitchFinalize();
          return;
        }
        log := log + [MorphRealized(morph), MorphRan(morph, actor.video, actmorph.video)];
        if morph.done {
          SwitchFinalize();
        }
      }
    }

    /** Lines 694-724 of run: realize and run the main actor, then, during a
        switch, advance it as RunMorph says. */
    method RunFrame()
      requires Valid() && actor != null && (morphing ==> actvideo != null)
      modifies this`log, this`actmorphvideo, this`privvid, this`actor, this`actmorph, this`morphing, this`morph
      modifies this`depthold, this`depth, this`depthchanged, this`depthfromGL, this`depthforcedmain
      modifies actor`realized, Actors(actmorph)`video, Morphs(morph)`refs, Videos(actvideo)`depth
      ensures Valid()
      ensures var ran := old(log) + [ActorRealized(old(actor)), ActorRan(old(actor))];
              var blend := old(morphing) && old(actmorph.video) != null && old(actor.video) != null && useMorph &&
                           old(actmorph.video.depth) != GL && old(actor.video.depth) != GL;
              && old(actor).realized == (old(actor.realized) || old(actor.hasPlugin))
              && (!blend ==> log == ran && Kept())
              && (blend && (old(morph) == null || !old(morph.hasPlugin)) ==>
                    Ended(old(morph)) && log == ran + [ActorRan(old(actmorph))] + Renegotiation())
              && (blend && old(morph) != null && old(morph.hasPlugin) ==>
                    var morphed := ran + [ActorRan(old(actmorph)), MorphRealized(old(morph)),
                                          MorphRan(old(morph), old(actor.video), old(actmorph.video))];
                    && (old(morph.done) ==> Ended(old(morph)) && log == morphed + Renegotiation())
                    && (!old(morph.done) ==> log == morphed && Kept()))
    {
      RealizeActor(actor);
      log := log + [ActorRan(actor)];
      if morphing {
        RunMorph();
      }
    }

    /** What run does during a switch, from the state the call started in,
        with log0 the log once the input has run; a, m and mo are the actor,
        the pending actor and the morph it started with. Both actors are
        prepared. The frame then stops when an actor has no plugin or the main
        actor has no video; a direct switch is finalized; otherwise the main
        actor runs, and a blending switch runs the pending actor and the morph
        and ends when there is no morph plugin or the morph is done. Wherever
        the switch does not end, it and the depths are kept. */
    twostate predicate Advanced(a: Actor, m: Actor, mo: Morph?, log0: seq<Event>)
      reads this, a, m, Actors(actor), Actors(actmorph)`video, Morphs(morph)`refs, Morphs(mo)`refs
      reads Videos(actvideo)`depth
    {
      var ready := old(m.hasPlugin) && old(a.hasPlugin);
      var pre := log0 + Prepared(m, a, old(m.realized), old(a.realized), depthforced);
      var direct := ready && old(a.video) != null && (!useMorph || old(a.video.depth) == GL);
      var go := ready && old(a.video) != null && !direct;
      var blend := go && old(m.video) != null && old(m.video.depth) != GL;
      var ran := pre + [ActorRealized(a), ActorRan(a)];
      var morphed := if mo != null && old(mo.hasPlugin)
                     then ran + [ActorRan(m), MorphRealized(mo), MorphRan(mo, old(a.video), old(m.video))]
                     else ran + [ActorRan(m)];
      var ends := direct || (blend && (mo == null || !old(mo.hasPlugin) || old(mo.done)));
      && m.realized == (old(m.realized) || old(m.hasPlugin))
      && a.realized == (old(a.realized) || ready)
      && (ends ==> Ended(mo) && log == (if direct then pre else morphed) + Renegotiation())
      && (!ends ==> Kept() && morphing)
      && (!ends ==>
            log == (if !ready then log0 + (if old(m.hasPlugin) then Prepared(m, m, old(m.realized), true, depthforced) else [])
                    else if !go then pre
                    else if !blend then ran
                    else morphed))
    }

    /** Lines 660-724 of run, during a switch, once the input has run. */
    method RunSwitch()
      requires Valid() && morphing && actor != null && actvideo != null
      modifies this`log, this`actmorphvideo, this`privvid, this`actor, this`actmorph, this`morphing, this`morph
      modifies this`depthold, this`depth, this`depthchanged, this`depthfromGL, this`depthforcedmain
      modifies actor`realized, actmorph`realized, actmorph`video, Morphs(morph)`refs, actvideo`depth
      ensures Valid()
      ensures Advanced(old(actor), old(actmorph), old(morph), old(log))
    {
      var go := RunSwitchStart();
      if go {
        RunFrame();
      }
    }

    /** Bin::run: one frame. Without an actor and an input nothing happens.
        Otherwise the input runs; outside a switch the main actor is realized
        and runs, and during one the switch advances as Advanced says. */
    method Run()
      requires Valid() && (morphing ==> actvideo != null)
      modifies this`log, this`actmorphvideo, this`privvid, this`actor, this`actmorph, this`morphing, this`morph
      modifies this`depthold, this`depth, this`depthchanged, this`depthfromGL, this`depthforcedmain
      modifies Actors(actor)`realized, Actors(actmorph)`realized, Actors(actmorph)`video, Morphs(morph)`refs
      modifies Videos(actvideo)`depth
      ensures old(actor) == null || old(input) == null ==> unchanged(this)
      ensures old(actor) != null && old(input) != null ==> Valid()
      ensures old(actor) != null && old(input) != null && !old(morphing) ==>
                && log == old(log) + [InputRan(input), ActorRealized(old(actor)), ActorRan(old(actor))]
                && Kept() && actor.realized == (old(actor.realized) || actor.hasPlugin)
      ensures old(actor) != null && old(input) != null && old(morphing) ==>
                Advanced(old(actor), old(actmorph), old(morph), old(log) + [InputRan(old(input))])
    {
      if actor == null || input == null {
        return;
      }
      log := log + [InputRan(input)];
      if morphing {
        RunSwitch();
      } else {
        RunFrame();
      }
    }
  }

  /** A bin drawing into a fresh video, with a main actor that has a video
      and no switch under way. */
  method MainBin() returns (b: Bin, main: Actor)
    ensures fresh(b) && fresh(main) && fresh(b.actvideo) && fresh(main.video)
    ensures b.Valid() && b.Separate() && b.actor == main && !b.morphing
    ensures main.video != null && b.actvideo != null && b.morph == null && b.input == null
  {
    b := new Bin();
    main := new Actor;
    main.video := new Video();
    b.actvideo := new Video();
    b.actor := main;
  }

  /** MainBin with pending (holding one reference, handed over by the
      caller) as the pending actor of a switch. */
  method SwitchingBin() returns (b: Bin, main: Actor, pending: Actor)
    ensures fresh(b) && fresh(main) && fresh(pending) && fresh(b.actvideo) && main != pending
    ensures b.Valid() && b.actor == main && b.actmorph == pending && b.morphing
    ensures main.video != null && b.actvideo != null && b.morph == null && b.input == null && pending.refs == 1
  {
    b, main := MainBin();
    pending := new Actor;
    pending.video := new Video();
    pending.refs := 1;
    b.SwitchActor(pending);
  }

  /** switch_actor(name) as written, when the named actor cannot be created
      during a switch: the pending actor's only reference is dropped while the
      bin keeps it pending, so the destructor drops it a second time. */
  method PendingReleasedTwice() returns (b: Bin, pending: Actor)
    ensures b.actmorph == pending && b.morphing && pending.refs == -1
  {
    var main;
    b, main, pending := SwitchingBin();
    b.SwitchActorByNameAsWritten(null);
    b.Dispose();
  }

  /** The same sequence with the creation checked first: the pending actor's
      reference is dropped exactly once, by the destructor. */
  method PendingReleasedOnce() returns (b: Bin, pending: Actor)
    ensures b.actmorph == pending && b.morphing && pending.refs == 0
  {
    var main;
    b, main, pending := SwitchingBin();
    b.SwitchActorByName(null);
    b.Dispose();
  }

  /** Bin::connect by name as the source does it, for an actor and an input
      that each come with the one reference their creation hands out, then the
      destructor: each keeps a reference nobody holds; and when the input
      cannot be created, the new actor keeps its reference as well. */
  method CreationReferencesKept() returns (a: Actor, i: Input, lone: Actor)
    ensures a.refs == 1 && i.refs == 1 && lone.refs == 1
  {
    var b := new Bin();
    a := new Actor;
    a.refs := 1;
    i := new Input;
    i.refs := 1;
    var ok := b.ConnectByName(a, i);
    b.Dispose();
    var c := new Bin();
    lone := new Actor;
    lone.refs := 1;
    ok := c.ConnectByName(lone, null);
  }

  /** The same sequences with the creation references dropped: every plugin
      ends with no reference left. */
  method CreationReferencesReleased() returns (a: Actor, i: Input, lone: Actor)
    ensures a.refs == 0 && i.refs == 0 && lone.refs == 0
  {
    var b := new Bin();
    a := new Actor;
    a.refs := 1;
    i := new Input;
    i.refs := 1;
    var ok := b.ConnectByNameReleasing(a, i);
    b.Dispose();
    var c := new Bin();
    lone := new Actor;
    lone.refs := 1;
    ok := c.ConnectByNameReleasing(lone, null);
  }

  /** depth_changed reports a raised flag once, however many changes raised
      it: two supported changes, then two reads. */
  method DepthChangeReportedOnce() returns (first: bool, second: bool)
    ensures first && !second
  {
    var b := new Bin();
    b.SetSupportedDepth(Mask(true, true, false, false, false));
    b.SetDepth(DEPTH_8BIT);
    b.SetDepth(DEPTH_16BIT);
    first := b.DepthChanged();
    second := b.DepthChanged();
  }
}
