/** Video depths and video surfaces as the composition bin sees them: a depth
    is one bit of a five-bit depth mask, and a video is a small object with a
    depth, a size, a pitch and an optional pixel buffer. */
module LvVideo {
  import opened Wrappers

  /** One video depth: none, one of the four software depths, or GL. */
  datatype Depth = NONE | DEPTH_8BIT | DEPTH_16BIT | DEPTH_24BIT | DEPTH_32BIT | GL

  /** The VisVideoDepth constant of a depth: its bit in a depth mask. */
  function Value(d: Depth): (v: nat)
    ensures d != NONE ==> 0 < v
  {
    match d
    case NONE => 0
    case DEPTH_8BIT => 1
    case DEPTH_16BIT => 2
    case DEPTH_24BIT => 4
    case DEPTH_32BIT => 8
    case GL => 16
  }

  /** A depth mask (a VisVideoDepth flag word): one bit per depth; the NONE
      value has no bit of its own. */
  datatype Mask = Mask(d8: bool, d16: bool, d24: bool, d32: bool, gl: bool)

  /** The empty mask, and the mask holding GL alone. */
  const NoDepths := Mask(false, false, false, false, false)
  const OnlyGL := Mask(false, false, false, false, true)

  /** visual_video_depth_is_supported for one depth: its bit is in the mask. */
  predicate Supported(m: Mask, d: Depth) {
    match d
    case NONE => false
    case DEPTH_8BIT => m.d8
    case DEPTH_16BIT => m.d16
    case DEPTH_24BIT => m.d24
    case DEPTH_32BIT => m.d32
    case GL => m.gl
  }

  /** The mask holds no software depth: it is empty or GL alone. */
  predicate SoftwareFree(m: Mask) {
    !m.d8 && !m.d16 && !m.d24 && !m.d32
  }

  /** A mask supporting no depth is the empty mask. */
  lemma UnsupportingIsEmpty(m: Mask)
    ensures (forall d: Depth :: !Supported(m, d)) <==> m == NoDepths
  {
    if forall d: Depth :: !Supported(m, d) {
      assert !Supported(m, DEPTH_8BIT) && !Supported(m, DEPTH_16BIT) && !Supported(m, DEPTH_24BIT);
      assert !Supported(m, DEPTH_32BIT) && !Supported(m, GL);
    }
  }

  /** visual_video_depth_get_lowest: the lowest depth in the mask. */
  function Lowest(m: Mask): (d: Depth)
    ensures m == NoDepths <==> d == NONE
    ensures m != NoDepths ==> Supported(m, d)
  {
    if m.d8 then DEPTH_8BIT
    else if m.d16 then DEPTH_16BIT
    else if m.d24 then DEPTH_24BIT
    else if m.d32 then DEPTH_32BIT
    else if m.gl then GL
    else NONE
  }

  /** visual_video_depth_get_highest: the highest depth in the mask. */
  function Highest(m: Mask): (d: Depth)
    ensures m == NoDepths <==> d == NONE
    ensures m != NoDepths ==> Supported(m, d)
  {
    if m.gl then GL
    else if m.d32 then DEPTH_32BIT
    else if m.d24 then DEPTH_24BIT
    else if m.d16 then DEPTH_16BIT
    else if m.d8 then DEPTH_8BIT
    else NONE
  }

  /** visual_video_depth_get_highest_nogl: the highest software depth in the mask. */
  function HighestNoGL(m: Mask): (d: Depth)
    ensures d != GL
    ensures SoftwareFree(m) <==> d == NONE
    ensures !SoftwareFree(m) ==> Supported(m, d)
  {
    if m.d32 then DEPTH_32BIT
    else if m.d24 then DEPTH_24BIT
    else if m.d16 then DEPTH_16BIT
    else if m.d8 then DEPTH_8BIT
    else NONE
  }

  /** No depth in the mask is below Lowest(m). */
  lemma LowestIsLeast(m: Mask)
    ensures forall e: Depth | Supported(m, e) :: Value(Lowest(m)) <= Value(e)
  {
  }

  /** No depth in the mask is above Highest(m). */
  lemma HighestIsGreatest(m: Mask)
    ensures forall e: Depth | Supported(m, e) :: Value(e) <= Value(Highest(m))
  {
  }

  /** No software depth in the mask is above HighestNoGL(m). */
  lemma HighestNoGLIsGreatest(m: Mask)
    ensures forall e: Depth | e != GL && Supported(m, e) :: Value(e) <= Value(HighestNoGL(m))
  {
  }

  /** visual_video_bpp_from_depth: bytes per pixel; a GL surface has none. */
  function Bpp(d: Depth): (n: nat)
    ensures n == 0 <==> d == NONE || d == GL
    ensures n <= 4
  {
    match d
    case DEPTH_8BIT => 1
    case DEPTH_16BIT => 2
    case DEPTH_24BIT => 3
    case DEPTH_32BIT => 4
    case _ => 0
  }

  function Zeros(n: nat): (s: seq<bv8>)
    ensures |s| == n && forall i | 0 <= i < n :: s[i] == 0
  {
    seq(n, _ => 0)
  }

  /** A video surface (LV::Video): depth, dimensions, pitch and pixel buffer. */
  class Video {
    var depth: Depth
    var width: nat
    var height: nat
    var pitch: nat
    var pixels: Option<seq<bv8>>

    /** Video::create: a surface with no attributes and no buffer. */
    constructor ()
      ensures depth == NONE && width == 0 && height == 0 && pitch == 0 && pixels == None
    {
      depth, width, height, pitch, pixels := NONE, 0, 0, 0, None;
    }

    /** get_size: the byte size of a buffer for the current attributes. */
    function Size(): nat
      reads this`pitch, this`height
    {
      pitch * height
    }

    method SetDepth(d: Depth)
      modifies this`depth
      ensures depth == d
    {
      depth := d;
    }

    method SetPitch(p: nat)
      modifies this`pitch
      ensures pitch == p
    {
      pitch := p;
    }

    /** copy_attrs: take over the depth, dimensions and pitch of src, not its pixels. */
    method CopyAttrs(src: Video)
      modifies this`depth, this`width, this`height, this`pitch
      ensures depth == old(src.depth) && width == old(src.width)
      ensures height == old(src.height) && pitch == old(src.pitch)
    {
      depth, width, height, pitch := src.depth, src.width, src.height, src.pitch;
    }

    /** allocate_buffer: a fresh buffer of get_size() bytes. */
    method AllocateBuffer()
      modifies this`pixels
      ensures pixels == Some(Zeros(Size()))
    {
      pixels := Some(Zeros(Size()));
    }

    method FreeBuffer()
      modifies this`pixels
      ensures pixels == None
    {
      pixels := None;
    }
  }
}
