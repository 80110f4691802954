/** Checking an image against limits and recoding it if need be (`check_or_recode_to_size`): avatars
    are scaled down in a loop until they fit, other images once. */
module Recoding {
  import opened Collections

  type Bytes = seq<nat>

  datatype Picture = Picture(width: nat, height: nat, content: int)

  datatype Format = Png | Jpeg | OtherFormat

  datatype OutFormat = OutPng | OutJpeg

  datatype Viewtype = FileView | ImageView | StickerView

  /** The image library and the blob directory: what their calls return for each argument. */
  datatype Library = Library(
    encode: (Picture, OutFormat) -> Option<Bytes>,
    resize: (Picture, nat) -> Picture,
    thumbnail: (Picture, nat) -> Picture,
    whiten: Picture -> Picture,
    opaqueCorners: Picture -> bool,
    resolutionLimit: (Picture, nat) -> nat,
    write: Bytes -> bool)

  /** The file as opened; `picture` is the decoded image after its Exif orientation is applied. */
  datatype Source = Source(readable: bool, size: nat, exif: bool, format: Option<Format>, picture: Option<Picture>)

  datatype Stored = Original | Recoded(bytes: Bytes, picture: Picture)

  datatype Report = Report(ok: bool, stored: Stored, viewtype: Viewtype)

  datatype Limits = Limits(maxWh: nat, maxBytes: nat, avatar: bool)

  function Min(a: nat, b: nat): nat { if a < b then a else b }

  /** Scaling keeps the image within the requested square; no side shrinks below one pixel. */
  ghost predicate Sane(lib: Library) {
    && (forall p, t: nat :: lib.resize(p, t).width <= Max(t, 1) && lib.resize(p, t).height <= Max(t, 1))
    && (forall p :: lib.whiten(p).width == p.width && lib.whiten(p).height == p.height)
  }

  /** Image formats have headers: nothing encodes to no bytes. */
  ghost predicate NeverEmpty(lib: Library) {
    forall p, f :: lib.encode(p, f) != Some([])
  }

  // ----- the size loop -----

  datatype Scaled = Failed | Fitted(target: nat, picture: Picture, bytes: Bytes)

  function Scale(lib: Library, p: Picture, target: nat, avatar: bool): Picture {
    if avatar then lib.resize(p, target) else lib.thumbnail(p, target)
  }

  function ScaleDown(lib: Library, p: Picture, f: OutFormat, target: nat, limits: Limits): Scaled
    decreases target
  {
    var q := Scale(lib, p, target, limits.avatar);
    var e := lib.encode(q, f);
    if e.None? then Failed
    else if |e.value| > limits.maxBytes && limits.avatar then
      if target < 20 then Failed else ScaleDown(lib, p, f, target * 7 / 8, limits)
    else Fitted(target, q, e.value)
  }

  /** Rounded down to a multiple of eight, unless it is tiny or no reduction. */
  function Aligned(limit: nat, longest: nat): nat {
    if limit < longest && limit > 8 then limit - limit % 8 else limit
  }

  function FirstTarget(lib: Library, p: Picture, limits: Limits): nat {
    var longest := Max(p.width, p.height);
    var wanted := if limits.avatar then limits.maxWh else Aligned(lib.resolutionLimit(p, limits.maxWh), longest);
    Min(Min(wanted, longest), 65535)
  }

  // ----- the decision -----

  function OutputFormat(format: Format, tooManyBytes: bool): OutFormat {
    if format == Png && !tooManyBytes then OutPng else OutJpeg
  }

  /** Transparency is removed from avatars that are not JPEG, before anything is encoded. */
  function Base(lib: Library, p: Picture, format: Format, limits: Limits): Picture {
    if limits.avatar && format != Jpeg then lib.whiten(p) else p
  }

  function Recode(lib: Library, src: Source, p: Picture, format: Format, limits: Limits): Report {
    var tooManyBytes := src.size > limits.maxBytes;
    var tooLarge := p.width > limits.maxWh || p.height > limits.maxWh;
    var f := OutputFormat(format, tooManyBytes);
    var base := Base(lib, p, format, limits);
    var trial := lib.encode(base, f);
    var tries := limits.avatar && !tooManyBytes && !tooLarge && src.exif;
    if tries && trial.None? then Report(false, Original, ImageView)
    else
      var scale := tooManyBytes || (limits.avatar && (tooLarge || (src.exif && |trial.value| > limits.maxBytes)));
      if scale then
        match ScaleDown(lib, base, f, FirstTarget(lib, p, limits), limits)
        case Failed => Report(false, Original, ImageView)
        case Fitted(_, q, bytes) => Store(lib, base, f, q, bytes)
      else if src.exif then Store(lib, base, f, base, if tries then trial.value else [])
      else Report(true, Original, ImageView)
  }

  /** Writes the encoded bytes; if there are none the unscaled image is encoded. */
  function Store(lib: Library, base: Picture, f: OutFormat, q: Picture, encoded: Bytes): Report {
    var e := if encoded != [] then Some(encoded) else lib.encode(base, f);
    if e.Some? && lib.write(e.value)
    then Report(true, Recoded(e.value, if encoded != [] then q else base), ImageView)
    else Report(false, Original, ImageView)
  }

  function Inspect(lib: Library, src: Source, viewtype: Viewtype, limits: Limits): Report {
    if !src.readable || src.format.None? then Report(false, Original, viewtype)
    else if viewtype == FileView then Report(true, Original, ImageView)
    else if src.picture.None? then Report(false, Original, viewtype)
    else if viewtype == StickerView && !lib.opaqueCorners(src.picture.value) then Report(true, Original, StickerView)
    else Recode(lib, src, src.picture.value, src.format.value, limits)
  }

  /** An image that cannot be checked is sent as a plain file, if it is known to carry no Exif. */
  function CheckOrRecode(lib: Library, src: Source, viewtype: Viewtype, limits: Limits): Report {
    var r := Inspect(lib, src, viewtype, limits);
    if !r.ok && !limits.avatar && src.readable && !src.exif then Report(true, Original, FileView) else r
  }

  // ----- the imperative form -----

  method AlignToEight(limit: nat, longest: nat) returns (r: nat)
    ensures r == Aligned(limit, longest)
  {
    r := limit;
    if r < longest && r > 8 {
      while r % 8 != 0
        invariant limit - limit % 8 <= r <= limit
        decreases r
      {
        r := r - 1;
      }
    }
  }

  method ScaleLoop(lib: Library, p: Picture, f: OutFormat, first: nat, limits: Limits) returns (r: Scaled)
    ensures r == ScaleDown(lib, p, f, first, limits)
  {
    var target := first;
    while true
      invariant ScaleDown(lib, p, f, target, limits) == ScaleDown(lib, p, f, first, limits)
      decreases target
    {
      var q := Scale(lib, p, target, limits.avatar);
      var e := lib.encode(q, f);
      if e.None? { return Failed; }
      if |e.value| > limits.maxBytes && limits.avatar {
        if target < 20 { return Failed; }
        target := target * 7 / 8;
      } else {
        return Fitted(target, q, e.value);
      }
    }
  }

  /** The flag for the white background is taken by whichever encoding comes first. */
  method RecodeImage(lib: Library, src: Source, p: Picture, format: Format, limits: Limits) returns (r: Report)
    ensures r == Recode(lib, src, p, format, limits)
  {
    var addWhiteBg := limits.avatar && format != Jpeg;
    var img, encoded := p, [];
    var encodedFrom := p;
    var exceedsWh := p.width > limits.maxWh || p.height > limits.maxWh;
    var exceedsBytes := src.size > limits.maxBytes;
    var f := OutputFormat(format, exceedsBytes);
    var doScale := exceedsBytes;
    if !doScale && limits.avatar {
      doScale := exceedsWh;
      if !doScale && src.exif {
        if addWhiteBg {
          img := lib.whiten(img);
          addWhiteBg := false;
        }
        var e := lib.encode(img, f);
        if e.None? { return Report(false, Original, ImageView); }
        encoded, encodedFrom := e.value, img;
        doScale := |encoded| > limits.maxBytes;
      }
    }
    if doScale {
      var longest := Max(p.width, p.height);
      var target := limits.maxWh;
      if !limits.avatar {
        target := AlignToEight(lib.resolutionLimit(p, limits.maxWh), longest);
      }
      target := Min(Min(target, longest), 65535);
      if addWhiteBg {
        img := lib.whiten(img);
        addWhiteBg := false;
      }
      var scaled := ScaleLoop(lib, img, f, target, limits);
      if scaled.Failed? { return Report(false, Original, ImageView); }
      encoded, encodedFrom := scaled.bytes, scaled.picture;
    }
    if !doScale && !src.exif { return Report(true, Original, ImageView); }
    if encoded == [] {
      if addWhiteBg {
        img := lib.whiten(img);
      }
      var e := lib.encode(img, f);
      if e.None? { return Report(false, Original, ImageView); }
      encoded, encodedFrom := e.value, img;
    }
    if !lib.write(encoded) { return Report(false, Original, ImageView); }
    r := Report(true, Recoded(encoded, encodedFrom), ImageView);
  }

  method CheckOrRecodeToSize(lib: Library, src: Source, viewtype: Viewtype, limits: Limits) returns (r: Report)
    ensures r == CheckOrRecode(lib, src, viewtype, limits)
  {
    var vt, noExif := viewtype, false;
    r := Report(false, Original, vt);
    if src.readable {
      noExif := !src.exif;
      if src.format.Some? {
        if vt == FileView {
          vt := ImageView;
          return Report(true, Original, vt);
        }
        if src.picture.Some? {
          if vt == StickerView {
            if !lib.opaqueCorners(src.picture.value) {
              return Report(true, Original, vt);
            }
            vt := ImageView;
          }
          r := RecodeImage(lib, src, src.picture.value, src.format.value, limits);
        }
      }
    }
    if !r.ok && !limits.avatar && noExif {
      r := Report(true, Original, FileView);
    }
  }

  // ----- the scaling loop finds the largest target that fits -----

  /** The targets the loop may try from `target` on. */
  predicate Reaches(target: nat, later: nat)
    decreases target
  {
    later == target || (target >= 20 && Reaches(target * 7 / 8, later))
  }

  predicate Exceeds(lib: Library, p: Picture, f: OutFormat, target: nat, limits: Limits) {
    var e := lib.encode(Scale(lib, p, target, limits.avatar), f);
    e.Some? && |e.value| > limits.maxBytes
  }

  /** For avatars: the result fits, comes from a target of the sequence, and every larger target of
      the sequence was too big; failure means that the encoder failed or the smallest was too big. */
  lemma {:induction false} ScaleDownFindsLargest(lib: Library, p: Picture, f: OutFormat, target: nat, limits: Limits)
    requires limits.avatar
    ensures var r := ScaleDown(lib, p, f, target, limits);
            && (r.Fitted? ==>
                  && Reaches(target, r.target) && r.target <= target
                  && r.picture == lib.resize(p, r.target) && lib.encode(r.picture, f) == Some(r.bytes)
                  && |r.bytes| <= limits.maxBytes
                  && forall t: nat :: t > r.target && Reaches(target, t) ==> Exceeds(lib, p, f, t, limits))
            && (r.Failed? ==>
                  exists t: nat :: Reaches(target, t)
                    && (lib.encode(lib.resize(p, t), f).None? || (t < 20 && Exceeds(lib, p, f, t, limits))))
    decreases target
  {
    var q := lib.resize(p, target);
    var e := lib.encode(q, f);
    if e.Some? && |e.value| > limits.maxBytes && target >= 20 {
      var next := target * 7 / 8;
      ScaleDownFindsLargest(lib, p, f, next, limits);
      var r := ScaleDown(lib, p, f, next, limits);
      if r.Failed? {
        var t: nat :| Reaches(next, t) && (lib.encode(lib.resize(p, t), f).None? || (t < 20 && Exceeds(lib, p, f, t, limits)));
        assert Reaches(target, t);
      } else {
        forall t: nat | t > r.target && Reaches(target, t) ensures Exceeds(lib, p, f, t, limits) {
          assert t == target || Reaches(next, t);
        }
      }
    } else if e.None? || |e.value| > limits.maxBytes {
      assert Reaches(target, target);
    } else {
      forall t: nat | Reaches(target, t) ensures t <= target {
        ReachesDown(target, t);
      }
    }
  }

  lemma {:induction false} ReachesDown(target: nat, later: nat)
    requires Reaches(target, later)
    ensures later <= target
    decreases target
  {
    if later != target {
      ReachesDown(target * 7 / 8, later);
    }
  }

  // ----- main results -----

  ghost predicate Within(r: Stored, src: Source, limits: Limits) {
    match r
    case Original =>
      src.picture.Some? && src.size <= limits.maxBytes
      && src.picture.value.width <= limits.maxWh && src.picture.value.height <= limits.maxWh
    case Recoded(bytes, q) => |bytes| <= limits.maxBytes && q.width <= limits.maxWh && q.height <= limits.maxWh
  }

  lemma ScaledFits(lib: Library, p: Picture, f: OutFormat, target: nat, limits: Limits)
    requires Sane(lib) && limits.avatar && limits.maxWh >= 1 && target <= limits.maxWh
    ensures var r := ScaleDown(lib, p, f, target, limits);
            r.Fitted? ==> |r.bytes| <= limits.maxBytes && lib.encode(r.picture, f) == Some(r.bytes)
                          && r.picture.width <= limits.maxWh && r.picture.height <= limits.maxWh
  {
    ScaleDownFindsLargest(lib, p, f, target, limits);
  }

  /** Some target of the sequence encodes to nothing, while all larger ones are too big. */
  ghost predicate EndsEmpty(lib: Library, p: Picture, f: OutFormat, target: nat, limits: Limits) {
    exists t: nat :: EmptyAt(lib, p, f, target, limits, t)
  }

  ghost predicate EmptyAt(lib: Library, p: Picture, f: OutFormat, target: nat, limits: Limits, t: nat) {
    && Reaches(target, t) && lib.encode(lib.resize(p, t), f) == Some([])
    && forall u: nat :: u > t && Reaches(target, u) ==> Exceeds(lib, p, f, u, limits)
  }

  lemma LoopEndsEmptyIff(lib: Library, p: Picture, f: OutFormat, target: nat, limits: Limits)
    requires limits.avatar
    ensures EndsEmpty(lib, p, f, target, limits) <==>
            var r := ScaleDown(lib, p, f, target, limits); r.Fitted? && r.bytes == []
  {
    ScaleDownFindsLargest(lib, p, f, target, limits);
    var r := ScaleDown(lib, p, f, target, limits);
    if r.Fitted? && r.bytes == [] {
      assert EmptyAt(lib, p, f, target, limits, r.target);
    }
    if t: nat :| EmptyAt(lib, p, f, target, limits, t) {
      FirstFitEndsLoop(lib, p, f, target, limits, t, []);
    }
  }

  /** The image needs scaling, the sequence of targets ends with an encoding of no bytes, and the
      unscaled image that is written instead is past a limit. */
  ghost predicate ScalingLost(lib: Library, src: Source, p: Picture, format: Format, limits: Limits) {
    var f, base := OutputFormat(format, src.size > limits.maxBytes), Base(lib, p, format, limits);
    var whole := lib.encode(base, f);
    var tooLarge := p.width > limits.maxWh || p.height > limits.maxWh;
    && whole.Some? && EndsEmpty(lib, base, f, FirstTarget(lib, p, limits), limits)
    && (|whole.value| > limits.maxBytes || tooLarge)
    && (src.size > limits.maxBytes || tooLarge || src.exif)
  }

  lemma RecodedFitsIff(lib: Library, src: Source, p: Picture, format: Format, limits: Limits)
    requires Sane(lib) && limits.avatar && limits.maxWh >= 1 && src.picture == Some(p)
    requires Recode(lib, src, p, format, limits).ok
    ensures Within(Recode(lib, src, p, format, limits).stored, src, limits) <==> !ScalingLost(lib, src, p, format, limits)
  {
    var f, base := OutputFormat(format, src.size > limits.maxBytes), Base(lib, p, format, limits);
    ScaledFits(lib, base, f, FirstTarget(lib, p, limits), limits);
    LoopEndsEmptyIff(lib, base, f, FirstTarget(lib, p, limits), limits);
    assert base.width == p.width && base.height == p.height;
  }

  /** An avatar that is accepted fits the limits exactly if scaling was not lost to an empty encoding. */
  lemma AvatarFitsIff(lib: Library, src: Source, limits: Limits)
    requires Sane(lib) && limits.avatar && limits.maxWh >= 1
    requires CheckOrRecode(lib, src, ImageView, limits).ok
    ensures src.picture.Some? && src.format.Some?
    ensures Within(CheckOrRecode(lib, src, ImageView, limits).stored, src, limits) <==>
            !ScalingLost(lib, src, src.picture.value, src.format.value, limits)
  {
    RecodedFitsIff(lib, src, src.picture.value, src.format.value, limits);
  }

  /** With an encoder that never returns an empty file, every avatar that is accepted fits. */
  lemma AvatarFits(lib: Library, src: Source, limits: Limits)
    requires Sane(lib) && NeverEmpty(lib) && limits.avatar && limits.maxWh >= 1
    requires CheckOrRecode(lib, src, ImageView, limits).ok
    ensures Within(CheckOrRecode(lib, src, ImageView, limits).stored, src, limits)
  {
    AvatarFitsIff(lib, src, limits);
  }

  /** An encoder that returns no bytes would break the limit: the loop accepts the empty result, and
      then the unscaled image is written. */
  lemma EmptyEncodingBreaksLimit()
    ensures exists lib: Library, src: Source, limits: Limits ::
              && Sane(lib) && limits.avatar && limits.maxWh >= 1
              && CheckOrRecode(lib, src, ImageView, limits).ok
              && !Within(CheckOrRecode(lib, src, ImageView, limits).stored, src, limits)
  {
    var encode := (p: Picture, f: OutFormat) => if p.width > 1 then Some([1, 2]) else Some([]);
    var shrink := (p: Picture, t: nat) => Picture(Min(t, 1), Min(t, 1), 0);
    var lib := Library(encode, shrink, shrink, p => p, p => true, (p, t) => t, bytes => true);
    var src := Source(true, 5, false, Some(Jpeg), Some(Picture(2, 2, 0)));
    var limits := Limits(1, 1, true);
    assert Sane(lib);
    var r := CheckOrRecode(lib, src, ImageView, limits);
    assert ScaleDown(lib, Picture(2, 2, 0), OutJpeg, 1, limits) == Fitted(1, Picture(1, 1, 0), []);
    assert r == Report(true, Recoded([1, 2], Picture(2, 2, 0)), ImageView);
    assert !Within(r.stored, src, limits);
  }

  /** The conditions, known before the call, under which an accepted image keeps its bytes. */
  predicate KeepsBytes(lib: Library, src: Source, viewtype: Viewtype, limits: Limits) {
    || viewtype == FileView
    || src.picture.None?
    || (viewtype == StickerView && !lib.opaqueCorners(src.picture.value))
    || (!src.exif && src.size <= limits.maxBytes
        && (limits.avatar ==> src.picture.value.width <= limits.maxWh && src.picture.value.height <= limits.maxWh))
  }

  /** If an image is accepted as an image its original bytes are kept exactly under those conditions.
      In particular an image with Exif is re-encoded, unless it was passed as a plain file or as a
      transparent sticker, which are taken as they are. */
  lemma OriginalKeptIff(lib: Library, src: Source, viewtype: Viewtype, limits: Limits)
    requires var r := CheckOrRecode(lib, src, viewtype, limits); r.ok && r.viewtype != FileView
    ensures CheckOrRecode(lib, src, viewtype, limits).stored == Original <==> KeepsBytes(lib, src, viewtype, limits)
    ensures var s := CheckOrRecode(lib, src, viewtype, limits).stored;
            s.Recoded? ==> exists f :: lib.encode(s.picture, f) == Some(s.bytes)
  {
    if src.picture.Some? && src.format.Some? {
      var p, format := src.picture.value, src.format.value;
      var f, base := OutputFormat(format, src.size > limits.maxBytes), Base(lib, p, format, limits);
      ScaleDownEncodes(lib, base, f, FirstTarget(lib, p, limits), limits);
    }
  }

  /** An image with Exif that passes unchanged, as a plain file and as a transparent sticker. */
  lemma ExifKept(lib: Library, p: Picture, limits: Limits)
    requires !lib.opaqueCorners(p)
    ensures var src := Source(true, 5, true, Some(Png), Some(p));
            && CheckOrRecode(lib, src, FileView, limits) == Report(true, Original, ImageView)
            && CheckOrRecode(lib, src, StickerView, limits) == Report(true, Original, StickerView)
  {}

  lemma {:induction false} ScaleDownEncodes(lib: Library, p: Picture, f: OutFormat, target: nat, limits: Limits)
    ensures var r := ScaleDown(lib, p, f, target, limits); r.Fitted? ==> lib.encode(r.picture, f) == Some(r.bytes)
    decreases target
  {
    var e := lib.encode(Scale(lib, p, target, limits.avatar), f);
    if e.Some? && |e.value| > limits.maxBytes && limits.avatar && target >= 20 {
      ScaleDownEncodes(lib, p, f, target * 7 / 8, limits);
    }
  }

  // ----- what is stored -----

  /** A picture may be scaled to `t`: within the resolution limit, not enlarged, within what JPEG allows,
      and a multiple of eight where the limit, being above eight, reduces it. */
  predicate Allowed(limit: nat, longest: nat, t: nat) {
    && t <= limit && t <= longest && t <= 65535
    && (8 < limit < longest && limit <= 65535 ==> t % 8 == 0)
  }

  ghost predicate LargestAllowed(limit: nat, longest: nat, t: nat) {
    Allowed(limit, longest, t) && forall u: nat :: Allowed(limit, longest, u) ==> u <= t
  }

  lemma MultipleBelow(limit: nat, u: nat)
    requires u <= limit && u % 8 == 0
    ensures u <= limit - limit % 8
  {}

  lemma FirstTargetIsLargest(lib: Library, p: Picture, limits: Limits)
    requires !limits.avatar
    ensures LargestAllowed(lib.resolutionLimit(p, limits.maxWh), Max(p.width, p.height), FirstTarget(lib, p, limits))
  {
    var limit, longest: nat := lib.resolutionLimit(p, limits.maxWh), Max(p.width, p.height);
    forall u: nat | Allowed(limit, longest, u) ensures u <= FirstTarget(lib, p, limits) {
      if 8 < limit < longest && limit <= 65535 { MultipleBelow(limit, u); }
    }
  }

  /** Past 65535 pixels the multiple of eight is lost: the limit of JPEG is not one. */
  lemma AlignmentLost(lib: Library)
    requires lib.resolutionLimit(Picture(70000, 1, 0), 1280) == 65536
    ensures LargestAllowed(65536, 70000, 65535) && FirstTarget(lib, Picture(70000, 1, 0), Limits(1280, 500000, false)) == 65535
  {
    FirstTargetIsLargest(lib, Picture(70000, 1, 0), Limits(1280, 500000, false));
  }

  /** The file is decoded and goes through the recoding, as an image or as a sticker without transparency. */
  predicate IsRecoded(lib: Library, src: Source, viewtype: Viewtype, p: Picture, format: Format) {
    && src.readable && src.format == Some(format) && src.picture == Some(p)
    && (viewtype == ImageView || (viewtype == StickerView && lib.opaqueCorners(p)))
  }

  /** A picture past the byte limit that is not an avatar is stored as the JPEG encoding of its
      thumbnail at the largest size allowed; that it cannot be encoded or written makes it a plain file
      or an error. */
  lemma PhotoScaled(lib: Library, src: Source, viewtype: Viewtype, p: Picture, format: Format, limits: Limits)
    returns (t: nat)
    requires IsRecoded(lib, src, viewtype, p, format) && !limits.avatar && src.size > limits.maxBytes
    ensures LargestAllowed(lib.resolutionLimit(p, limits.maxWh), Max(p.width, p.height), t)
    ensures var r, e := CheckOrRecode(lib, src, viewtype, limits), lib.encode(lib.thumbnail(p, t), OutJpeg);
            && (e.Some? && e.value != [] && lib.write(e.value) ==>
                  r == Report(true, Recoded(e.value, lib.thumbnail(p, t)), ImageView))
            && (e.None? || (e.value != [] && !lib.write(e.value)) ==>
                  r.stored == Original && r.ok == !src.exif && (r.ok ==> r.viewtype == FileView))
  {
    t := FirstTarget(lib, p, limits);
    FirstTargetIsLargest(lib, p, limits);
  }

  /** With thumbnails that stay within their square both sides are then within it. */
  lemma PhotoFits(lib: Library, src: Source, viewtype: Viewtype, p: Picture, format: Format, limits: Limits)
    returns (t: nat)
    requires IsRecoded(lib, src, viewtype, p, format) && !limits.avatar && src.size > limits.maxBytes && NeverEmpty(lib)
    requires forall q, u: nat :: lib.thumbnail(q, u).width <= Max(u, 1) && lib.thumbnail(q, u).height <= Max(u, 1)
    ensures LargestAllowed(lib.resolutionLimit(p, limits.maxWh), Max(p.width, p.height), t)
    ensures var s := CheckOrRecode(lib, src, viewtype, limits).stored;
            s.Recoded? ==> s.picture.width <= Max(t, 1) && s.picture.height <= Max(t, 1)
  {
    t := PhotoScaled(lib, src, viewtype, p, format, limits);
    assert lib.encode(lib.thumbnail(p, t), OutJpeg) != Some([]);
  }

  /** PNG stays PNG within the byte limit; everything else becomes JPEG. */
  function StoredFormat(src: Source, limits: Limits): OutFormat {
    if src.format == Some(Png) && src.size <= limits.maxBytes then OutPng else OutJpeg
  }

  /** Avatars that are not JPEG get a white background. */
  function Background(lib: Library, p: Picture, format: Format, limits: Limits): Picture {
    if limits.avatar && format != Jpeg then lib.whiten(p) else p
  }

  /** An image within its limits that is re-encoded because of its Exif data keeps its size. */
  lemma ExifRecoded(lib: Library, src: Source, viewtype: Viewtype, p: Picture, format: Format, limits: Limits)
    requires IsRecoded(lib, src, viewtype, p, format) && src.exif && src.size <= limits.maxBytes
    requires limits.avatar ==> p.width <= limits.maxWh && p.height <= limits.maxWh
    ensures var base := Background(lib, p, format, limits);
            var r, e := CheckOrRecode(lib, src, viewtype, limits), lib.encode(base, StoredFormat(src, limits));
            e.Some? && lib.write(e.value) && (limits.avatar ==> |e.value| <= limits.maxBytes) ==>
              r == Report(true, Recoded(e.value, base), ImageView)
  {}

  /** The avatar does not fit as it is. */
  predicate NeedsScaling(lib: Library, src: Source, p: Picture, format: Format, limits: Limits) {
    || src.size > limits.maxBytes || p.width > limits.maxWh || p.height > limits.maxWh
    || (src.exif && var e := lib.encode(Background(lib, p, format, limits), StoredFormat(src, limits));
                    e.Some? && |e.value| > limits.maxBytes)
  }

  /** An avatar that does not fit is stored, over its background, at the largest size that does, of those
      obtained from the smallest of the limit, its longest side and 65535 by taking seven eighths. */
  lemma AvatarScaled(lib: Library, src: Source, p: Picture, format: Format, limits: Limits)
    requires IsRecoded(lib, src, ImageView, p, format) && limits.avatar && NeverEmpty(lib)
    requires NeedsScaling(lib, src, p, format, limits) && CheckOrRecode(lib, src, ImageView, limits).ok
    ensures var base, f := Background(lib, p, format, limits), StoredFormat(src, limits);
            var first: nat := Min(Min(limits.maxWh, Max(p.width, p.height)), 65535);
            var s := CheckOrRecode(lib, src, ImageView, limits).stored;
            && s.Recoded? && lib.encode(s.picture, f) == Some(s.bytes) && |s.bytes| <= limits.maxBytes
            && exists t: nat :: Reaches(first, t) && s.picture == lib.resize(base, t)
                                && forall u: nat :: u > t && Reaches(first, u) ==> Exceeds(lib, base, f, u, limits)
  {
    ScaleDownFindsLargest(lib, Base(lib, p, format, limits), OutputFormat(format, src.size > limits.maxBytes),
                          FirstTarget(lib, p, limits), limits);
  }

  /** An avatar past a limit is accepted at the first size of the sequence that fits, whether or not it
      could be encoded unscaled. */
  lemma AvatarAccepted(lib: Library, src: Source, p: Picture, format: Format, limits: Limits, t: nat, bytes: Bytes)
    requires IsRecoded(lib, src, ImageView, p, format) && limits.avatar
    requires src.size > limits.maxBytes || p.width > limits.maxWh || p.height > limits.maxWh
    requires var base, f := Background(lib, p, format, limits), StoredFormat(src, limits);
             var first: nat := Min(Min(limits.maxWh, Max(p.width, p.height)), 65535);
             && Reaches(first, t) && lib.encode(lib.resize(base, t), f) == Some(bytes)
             && bytes != [] && |bytes| <= limits.maxBytes && lib.write(bytes)
             && forall u: nat :: u > t && Reaches(first, u) ==> Exceeds(lib, base, f, u, limits)
    ensures CheckOrRecode(lib, src, ImageView, limits) ==
            Report(true, Recoded(bytes, lib.resize(Background(lib, p, format, limits), t)), ImageView)
  {
    FirstFitEndsLoop(lib, Base(lib, p, format, limits), StoredFormat(src, limits), FirstTarget(lib, p, limits), limits, t, bytes);
  }

  lemma {:induction false} FirstFitEndsLoop(
    lib: Library, p: Picture, f: OutFormat, target: nat, limits: Limits, t: nat, bytes: Bytes)
    requires limits.avatar && Reaches(target, t) && lib.encode(lib.resize(p, t), f) == Some(bytes)
    requires |bytes| <= limits.maxBytes && forall u: nat :: u > t && Reaches(target, u) ==> Exceeds(lib, p, f, u, limits)
    ensures ScaleDown(lib, p, f, target, limits) == Fitted(t, lib.resize(p, t), bytes)
    decreases target
  {
    if t != target {
      ReachesDown(target, t);
      assert Reaches(target, target) && Exceeds(lib, p, f, target, limits);
      forall u: nat | u > t && Reaches(target * 7 / 8, u) ensures Exceeds(lib, p, f, u, limits) {
        assert Reaches(target, u);
      }
      FirstFitEndsLoop(lib, p, f, target * 7 / 8, limits, t, bytes);
    }
  }

  /** An image within its limits and without Exif passes as it is; what cannot be read is an error. */
  lemma FineImagePasses(lib: Library, src: Source, viewtype: Viewtype, p: Picture, format: Format, limits: Limits)
    requires IsRecoded(lib, src, viewtype, p, format) && !src.exif && src.size <= limits.maxBytes
    requires limits.avatar ==> p.width <= limits.maxWh && p.height <= limits.maxWh
    ensures CheckOrRecode(lib, src, viewtype, limits) == Report(true, Original, ImageView)
  {}

  lemma UnreadableFails(lib: Library, src: Source, viewtype: Viewtype, limits: Limits)
    requires !src.readable
    ensures !CheckOrRecode(lib, src, viewtype, limits).ok
  {}

  /** Apart from avatars, a readable image without Exif is always accepted; what falls back to a plain
      file keeps its bytes, and nothing with Exif falls back. */
  lemma FallbackIsPlain(lib: Library, src: Source, viewtype: Viewtype, limits: Limits)
    ensures var r := CheckOrRecode(lib, src, viewtype, limits);
            && (!limits.avatar && src.readable && !src.exif ==> r.ok)
            && (r.ok && r.viewtype == FileView ==> r.stored == Original && !src.exif && !limits.avatar)
  {}
}
