// The Android-style buffer queue of the display service
// (app/src/main/cpp/skyline/services/hosbinder/GraphicBufferProducer.cpp):
// the slot state machine driven by the producer's transactions.
//
// The presentation engine is not part of this model. What it hands back is
// a parameter: the status and slot `GetFreeTexture` produces; `Present`,
// fence waits, texture synchronisation and event signals change nothing the
// producer keeps. The header declaring the slot count, the magic numbers and
// the initial field values is not part of this model either: those are
// constructor parameters. The enumerations are kept by name, with a case for
// any raw value the source does not list.

module BufferProducer {
  import opened Wrappers
  import opened Common
  import NvMap

  datatype AndroidStatus = StatusOk | BadValue | NoMemory | NoInit | Busy | OtherStatus(code: int)

  datatype BufferState = Free | Dequeued | Queued | Acquired

  datatype AndroidPixelFormat = FormatNone | RGBA8888 | RGBX8888 | RGB565 | OtherFormat(raw: u32)

  datatype ScalingMode = Freeze | ScaleToWindow | ScaleCrop | NoScaleCrop | UnknownScaling(raw: u32)

  datatype Transform = Identity | MirrorHorizontal | MirrorVertical | Rotate90 | Rotate180 | Rotate270
                     | MirrorHorizontalRotate90 | MirrorVerticalRotate90 | InvertDisplay | UnknownTransform(raw: u32)

  datatype NativeWindowApi = ApiNone | EGL | CPU | Media | Camera | UnknownApi(raw: u32)

  datatype NativeWindowQuery = Width | Height | Format | MinUndequeuedBuffers | StickyTransform
                             | ConsumerRunningBehind | ConsumerUsageBits | MaxBufferCount | UnknownQuery(raw: u32)

  datatype DisplayId = Default | External | Edid | Internal | Null

  datatype SurfaceLayout = Pitch | Tiled | Blocklinear

  /** The tiling a presentation texture is created with. */
  datatype TileMode = Linear | PitchMode | Block

  datatype TextureFormat = RGBA8888Unorm | RGB565Unorm

  /** The one surface of a buffer, as far as the producer reads it. */
  datatype Surface = Surface(width: u32, height: u32, progressive: bool, nvmapHandle: u32,
                             offset: u32, size: u32, layout: SurfaceLayout)

  datatype GraphicHandle = GraphicHandle(magic: u32, nvmapId: u32, surfaceCount: u32, surface: Surface)

  /** A client's buffer description. */
  datatype GraphicBuffer = GraphicBuffer(magic: u32, intCount: u32, width: u32, height: u32,
                                         format: AndroidPixelFormat, usage: bv32, handle: GraphicHandle)

  /** What the presentation texture of a slot was created from. */
  datatype Texture = Texture(address: nat, width: u32, height: u32, format: TextureFormat, tileMode: TileMode)

  datatype BufferSlot = BufferSlot(state: BufferState, frameNumber: u32, wasBufferRequested: bool,
                                   graphicBuffer: Option<GraphicBuffer>, texture: Option<Texture>)

  /** The crop rectangle of a queued frame, in signed 32-bit coordinates. */
  datatype AndroidRect = AndroidRect(left: i32, top: i32, right: i32, bottom: i32)

  /** Constants of the producer's header. */
  datatype Config = Config(maxSlotCount: nat, bufferMagic: u32, intCount: u32, handleMagic: u32)

  const U32Max: u32 := 0xFFFF_FFFF

  /** The number of Queued slots in a run of slots. */
  function CountQueued(slots: seq<BufferSlot>): (n: nat)
    ensures n <= |slots|
  {
    if slots == [] then 0 else CountQueued(slots[..|slots| - 1]) + (if slots[|slots| - 1].state == Queued then 1 else 0)
  }

  /** The number of slots holding a buffer. */
  function CountBuffers(slots: seq<BufferSlot>): (n: nat)
    ensures n <= |slots|
  {
    if slots == [] then 0 else CountBuffers(slots[..|slots| - 1]) + (if slots[|slots| - 1].graphicBuffer.Some? then 1 else 0)
  }

  /** The indices of the Queued slots. */
  function QueuedIndices(slots: seq<BufferSlot>): set<nat> {
    set i: nat | i < |slots| && slots[i].state == Queued
  }

  /** The counting loop counts exactly the Queued slots. */
  lemma {:induction false} CountQueuedIsQueuedIndices(slots: seq<BufferSlot>)
    ensures CountQueued(slots) == |QueuedIndices(slots)|
    decreases |slots|
  {
    if slots != [] {
      var init := slots[..|slots| - 1];
      CountQueuedIsQueuedIndices(init);
      if slots[|slots| - 1].state == Queued {
        assert QueuedIndices(slots) == QueuedIndices(init) + {|slots| - 1};
      } else {
        assert QueuedIndices(slots) == QueuedIndices(init);
      }
    }
  }

  /** Replacing one slot changes the buffer count by the difference it makes. */
  lemma {:induction false} CountBuffersUpdate(slots: seq<BufferSlot>, i: nat, s: BufferSlot)
    requires i < |slots|
    ensures CountBuffers(slots[i := s]) + (if slots[i].graphicBuffer.Some? then 1 else 0)
            == CountBuffers(slots) + (if s.graphicBuffer.Some? then 1 else 0)
    decreases |slots|
  {
    var last := |slots| - 1;
    if i < last {
      assert slots[i := s][..last] == slots[..last][i := s];
      CountBuffersUpdate(slots[..last], i, s);
    } else {
      assert slots[i := s][..last] == slots[..last];
    }
  }

  /** Slots without buffers count none. */
  lemma {:induction false} CountBuffersEmpty(slots: seq<BufferSlot>)
    requires forall i :: 0 <= i < |slots| ==> slots[i].graphicBuffer.None?
    ensures CountBuffers(slots) == 0
    decreases |slots|
  {
    if slots != [] {
      CountBuffersEmpty(slots[..|slots| - 1]);
    }
  }

  /** A requested dimension, or the default one when it is zero. */
  function OrDefault(value: u32, default: u32): (r: u32)
    ensures value != 0 ==> r == value
    ensures value == 0 ==> r == default
  {
    if value != 0 then value else default
  }

  /** Whether a slot's buffer matches a dequeue request: same format and
      surface size, and every requested usage bit present. */
  predicate Compatible(buffer: GraphicBuffer, format: AndroidPixelFormat, width: u32, height: u32, usage: bv32) {
    && buffer.format == format
    && buffer.handle.surface.width == width
    && buffer.handle.surface.height == height
    && buffer.usage & usage == usage
  }

  /** The outcome of dequeuing a slot the presentation engine picked, for an
      effective request: a slot past the array throws, an empty slot is
      NoMemory, a mismatching buffer NoInit. */
  function DequeueStatus(slots: seq<BufferSlot>, slot: int, width: u32, height: u32,
                         format: AndroidPixelFormat, usage: bv32): (r: Result<AndroidStatus>)
    ensures r.Err? <==> !(0 <= slot < |slots|)
    ensures r.Ok? ==> (r.value == NoMemory <==> slots[slot].graphicBuffer.None?)
    ensures r.Ok? ==> (r.value == StatusOk <==> slots[slot].graphicBuffer.Some?
                                                && Compatible(slots[slot].graphicBuffer.value, format, width, height, usage))
    ensures r.Ok? ==> r.value in {StatusOk, NoMemory, NoInit}
  {
    if !(0 <= slot < |slots|) then Err("array::at: slot out of range")
    else if slots[slot].graphicBuffer.None? then Ok(NoMemory)
    else if !Compatible(slots[slot].graphicBuffer.value, format, width, height, usage) then Ok(NoInit)
    else Ok(StatusOk)
  }

  predicate KnownScaling(m: ScalingMode) { !m.UnknownScaling? }

  predicate KnownTransform(t: Transform) { !t.UnknownTransform? }

  /** The APIs a producer may connect with. */
  predicate KnownApi(api: NativeWindowApi) { api.EGL? || api.CPU? || api.Media? || api.Camera? }

  /** The crop check, in the source's unsigned comparison: a difference of the
      signed coordinates converted to 32 bits unsigned, so an inverted
      rectangle reads as a huge one. */
  predicate CropFits(buffer: GraphicBuffer, crop: AndroidRect) {
    && buffer.width >= Wrap32(crop.right - crop.left)
    && buffer.height >= Wrap32(crop.bottom - crop.top)
  }

  /** The messages QueueBuffer throws with. */
  const NullBufferError := "null buffer dereferenced"
  const UnknownTransformError := "Application attempting to perform unknown transformation"
  const StickyTransformError := "Any non-identity sticky transform is not supported"

  /** What QueueBuffer answers. BadValue, in this order, for an unknown
      scaling mode, a slot out of range, a slot not dequeued, a slot never
      requested, and a crop larger than the buffer; a slot without a buffer
      is dereferenced, and an unknown transform or a sticky transform
      throws. */
  function QueueStatus(slots: seq<BufferSlot>, slot: i32, crop: AndroidRect, scalingMode: ScalingMode,
                       transform: Transform, stickyTransform: Transform): (r: Result<AndroidStatus>)
    ensures !KnownScaling(scalingMode) ==> r == Ok(BadValue)
    ensures KnownScaling(scalingMode) && !(0 <= slot < |slots|) ==> r == Ok(BadValue)
    ensures KnownScaling(scalingMode) && 0 <= slot < |slots| ==>
              && (slots[slot].state != Dequeued ==> r == Ok(BadValue))
              && (slots[slot].state == Dequeued && !slots[slot].wasBufferRequested ==> r == Ok(BadValue))
    ensures r == Ok(StatusOk) <==>
              && KnownScaling(scalingMode) && 0 <= slot < |slots| && slots[slot].state == Dequeued
              && slots[slot].wasBufferRequested && slots[slot].graphicBuffer.Some?
              && CropFits(slots[slot].graphicBuffer.value, crop)
              && KnownTransform(transform) && stickyTransform == Identity
  {
    if !KnownScaling(scalingMode) || slot < 0 || slot >= |slots| then Ok(BadValue)
    else if slots[slot].state != Dequeued || !slots[slot].wasBufferRequested then Ok(BadValue)
    else if slots[slot].graphicBuffer.None? then Err(NullBufferError)
    else if !CropFits(slots[slot].graphicBuffer.value, crop) then Ok(BadValue)
    else if !KnownTransform(transform) then Err(UnknownTransformError)
    else if stickyTransform != Identity then Err(StickyTransformError)
    else Ok(StatusOk)
  }

  /** The tile mode chosen for a surface layout as written: the first test is
      `layout != Blocklinear`, so pitch and legacy tiled surfaces are taken as
      block-linear, a block-linear one as pitch, and the tiled error is never
      reached. */
  function TileModeAsWritten(layout: SurfaceLayout): (r: Result<TileMode>)
    ensures r.Ok?
    ensures layout == Pitch ==> r.value == Block
    ensures layout == Blocklinear ==> r.value == PitchMode
  {
    if layout != Blocklinear then Ok(Block)
    else if layout != Pitch then Ok(PitchMode)
    else if layout == Tiled then Err("Legacy 16Bx16 tiled surfaces are not supported")
    else Ok(Linear)
  }

  /** The tile mode the branch bodies and the log line intend: block-linear
      surfaces are tiled in blocks, pitch surfaces by pitch, and legacy tiled
      surfaces are refused. */
  function TileModeOf(layout: SurfaceLayout): (r: Result<TileMode>)
    ensures r.Ok? <==> layout != Tiled
    ensures layout == Blocklinear ==> r == Ok(Block)
    ensures layout == Pitch ==> r == Ok(PitchMode)
  {
    match layout
    case Blocklinear => Ok(Block)
    case Pitch => Ok(PitchMode)
    case Tiled => Err("Legacy 16Bx16 tiled surfaces are not supported")
  }

  /** A pitch-linear surface shows the two disagree. */
  lemma TileModeAsWrittenSwapsLayouts()
    ensures TileModeAsWritten(Pitch) == Ok(Block) && TileModeOf(Pitch) == Ok(PitchMode)
    ensures TileModeAsWritten(Tiled).Ok? && TileModeOf(Tiled).Err?
  {
  }

  /** The texture format of a buffer's pixel format; other formats throw. */
  function TextureFormatOf(f: AndroidPixelFormat): (r: Result<TextureFormat>)
    ensures r.Ok? <==> f.RGBA8888? || f.RGBX8888? || f.RGB565?
    ensures r.Ok? ==> (r.value == RGB565Unorm <==> f.RGB565?)
  {
    match f
    case RGBA8888 => Ok(RGBA8888Unorm)
    case RGBX8888 => Ok(RGBA8888Unorm)
    case RGB565 => Ok(RGB565Unorm)
    case _ => Err("Unknown format in buffer")
  }

  /** The position the id search stops at: the first entry that is freed or
      has the id, or the end of the table. */
  function IdSearchEnd(maps: seq<Option<NvMap.NvMapObject>>, id: u32): (k: nat)
    ensures k <= |maps|
    ensures forall j :: 0 <= j < k ==> maps[j].Some? && maps[j].value.id != id
    ensures k < |maps| ==> maps[k].None? || maps[k].value.id == id
  {
    if maps == [] || maps[0].None? || maps[0].value.id == id then 0
    else 1 + IdSearchEnd(maps[1..], id)
  }

  /** The first object in the table with the given id; a freed slot met on the
      way is dereferenced in the source, an error here. The search succeeds
      exactly when an object with the id comes before any freed slot, and it
      returns the first such object. */
  function FindById(maps: seq<Option<NvMap.NvMapObject>>, id: u32): (r: Result<NvMap.NvMapObject>)
    ensures var k := IdSearchEnd(maps, id);
            && (r.Ok? <==> k < |maps| && maps[k].Some?)
            && (r.Ok? ==> maps[k] == Some(r.value) && r.value.id == id)
    decreases |maps|
  {
    if maps == [] then Err("A QueueBuffer request has an invalid NvMap Handle and ID")
    else if maps[0].None? then Err("A freed nvmap object was dereferenced")
    else if maps[0].value.id == id then Ok(maps[0].value)
    else FindById(maps[1..], id)
  }

  /** The nvmap object a surface lives in: by handle when it has one, by the
      buffer's id otherwise. */
  function SurfaceObject(nvmap: NvMap.NvMap, buffer: GraphicBuffer): (r: Result<NvMap.NvMapObject>)
    ensures buffer.handle.surface.nvmapHandle != 0 ==> r == NvMap.GetObject(nvmap, buffer.handle.surface.nvmapHandle)
    ensures buffer.handle.surface.nvmapHandle == 0 ==> r == FindById(nvmap.maps, buffer.handle.nvmapId)
  {
    if buffer.handle.surface.nvmapHandle != 0 then NvMap.GetObject(nvmap, buffer.handle.surface.nvmapHandle)
    else FindById(nvmap.maps, buffer.handle.nvmapId)
  }

  /** The checks SetPreallocatedBuffer makes on a buffer before storing it, in
      the source's order, and the texture it then creates. The room left in the
      nvmap object is a 32-bit unsigned difference. */
  function PreallocatedTexture(c: Config, nvmap: NvMap.NvMap, buffer: GraphicBuffer): (r: Result<Texture>)
    ensures r.Ok? <==> && buffer.magic == c.bufferMagic && buffer.intCount == c.intCount
                       && TextureFormatOf(buffer.format).Ok?
                       && buffer.handle.magic == c.handleMagic && buffer.handle.surfaceCount == 1
                       && buffer.handle.surface.progressive
                       && SurfaceObject(nvmap, buffer).Ok?
                       && buffer.handle.surface.size
                            <= Wrap32(SurfaceObject(nvmap, buffer).value.size - buffer.handle.surface.offset)
                       && buffer.handle.surface.layout != Tiled
    ensures r.Ok? ==> && r.value.width == buffer.handle.surface.width
                      && r.value.height == buffer.handle.surface.height
                      && r.value.address == SurfaceObject(nvmap, buffer).value.ptr + buffer.handle.surface.offset
                      && Ok(r.value.format) == TextureFormatOf(buffer.format)
                      && Ok(r.value.tileMode) == TileModeOf(buffer.handle.surface.layout)
  {
    if buffer.magic != c.bufferMagic then Err("Unexpected GraphicBuffer magic")
    else if buffer.intCount != c.intCount then Err("Unexpected GraphicBuffer native_handle integer count")
    else
      var format :- TextureFormatOf(buffer.format);
      var handle := buffer.handle;
      if handle.magic != c.handleMagic then Err("Unexpected NvGraphicHandle magic")
      else if handle.surfaceCount < 1 then Err("At least one surface is required in a buffer")
      else if handle.surfaceCount > 1 then Err("Multi-planar surfaces are not supported")
      else if !handle.surface.progressive then Err("Non-Progressive surfaces are not supported")
      else
        var mapped :- SurfaceObject(nvmap, buffer);
        if handle.surface.size > Wrap32(mapped.size - handle.surface.offset) then
          Err("Surface doesn't fit into NvMap mapping")
        else
          var tileMode :- TileModeOf(handle.surface.layout);
          Ok(Texture(mapped.ptr + handle.surface.offset, handle.surface.width, handle.surface.height, format, tileMode))
  }

  /** The name table of SetDisplay. */
  function DisplayByName(name: string): (r: Option<DisplayId>)
    ensures r.Some? <==> name in {"Default", "External", "Edid", "Internal", "Null"}
  {
    if name == "Default" then Some(Default)
    else if name == "External" then Some(External)
    else if name == "Edid" then Some(Edid)
    else if name == "Internal" then Some(Internal)
    else if name == "Null" then Some(Null)
    else None
  }

  function DisplayName(id: DisplayId): string {
    match id
    case Default => "Default"
    case External => "External"
    case Edid => "Edid"
    case Internal => "Internal"
    case Null => "Null"
  }

  /** Every display is found by its own name, so the table is one to one. */
  lemma DisplayNamesRoundTrip(id: DisplayId)
    ensures DisplayByName(DisplayName(id)) == Some(id)
  {
  }

  /** The value a query reports for a pixel format: Android's format codes. */
  function FormatCode(f: AndroidPixelFormat): u32 {
    match f
    case FormatNone => 0
    case RGBA8888 => 1
    case RGBX8888 => 2
    case RGB565 => 4
    case OtherFormat(raw) => raw
  }

  class GraphicBufferProducer {
    const config: Config
    var queue: seq<BufferSlot>
    var activeSlotCount: nat
    var hasBufferCount: nat
    var connectedApi: NativeWindowApi
    var defaultWidth: u32
    var defaultHeight: u32
    var defaultFormat: AndroidPixelFormat
    var displayId: DisplayId

    /** The slot array has its fixed size, which a u8 count can hold, and the
        active count never exceeds it. */
    predicate Valid()
      reads this
    {
      && |queue| == config.maxSlotCount < 0x100
      && activeSlotCount <= |queue|
    }

    /** Everything but the slots. */
    function Settings(): (nat, nat, NativeWindowApi, u32, u32, AndroidPixelFormat, DisplayId)
      reads this
    {
      (activeSlotCount, hasBufferCount, connectedApi, defaultWidth, defaultHeight, defaultFormat, displayId)
    }

    /** A producer with every slot free and empty, connected to no API and
        showing no display. */
    constructor (config: Config, defaultWidth: u32, defaultHeight: u32, defaultFormat: AndroidPixelFormat,
                 activeSlotCount: nat)
      requires config.maxSlotCount < 0x100 && activeSlotCount <= config.maxSlotCount
      ensures Valid()
      ensures this.config == config && |queue| == config.maxSlotCount
      ensures forall i :: 0 <= i < |queue| ==> queue[i] == BufferSlot(Free, 0, false, None, None)
      ensures connectedApi == ApiNone && displayId == Null
      ensures this.activeSlotCount == activeSlotCount && hasBufferCount == 0
      ensures this.defaultWidth == defaultWidth && this.defaultHeight == defaultHeight
      ensures this.defaultFormat == defaultFormat
    {
      this.config := config;
      queue := seq(config.maxSlotCount, _ => BufferSlot(Free, 0, false, None, None));
      this.activeSlotCount := activeSlotCount;
      hasBufferCount := 0;
      connectedApi := ApiNone;
      this.defaultWidth := defaultWidth;
      this.defaultHeight := defaultHeight;
      this.defaultFormat := defaultFormat;
      displayId := Null;
    }

    /** GetPendingBufferCount: the Queued slots among the first activeSlotCount. */
    method GetPendingBufferCount() returns (count: nat)
      requires Valid()
      ensures count == CountQueued(queue[..activeSlotCount])
      ensures count <= activeSlotCount
    {
      count := 0;
      var i := 0;
      while i < activeSlotCount
        invariant i <= activeSlotCount
        invariant count == CountQueued(queue[..i])
      {
        assert queue[..i + 1][..i] == queue[..i];
        if queue[i].state == Queued {
          count := count + 1;
        }
        i := i + 1;
      }
    }

    /** RequestBuffer: an out-of-range slot is refused; otherwise the slot is
        marked requested and its buffer handed out. */
    method RequestBuffer(slot: i32) returns (status: AndroidStatus, buffer: Option<GraphicBuffer>)
      modifies this
      ensures Settings() == old(Settings())
      ensures !(0 <= slot < |old(queue)|) ==> status == BadValue && buffer.None? && queue == old(queue)
      ensures 0 <= slot < |old(queue)| ==>
                && status == StatusOk && buffer == old(queue)[slot].graphicBuffer
                && queue == old(queue)[slot := old(queue)[slot].(wasBufferRequested := true)]
    {
      if slot < 0 || slot >= |queue| {
        return BadValue, None;
      }
      queue := queue[slot := queue[slot].(wasBufferRequested := true)];
      status, buffer := StatusOk, queue[slot].graphicBuffer;
    }

    /** DequeueBuffer. Exactly one zero dimension is refused before anything
        else, leaving the caller's slot value (0); the slot then reads -1 until
        the presentation engine, whose status and slot are `free`, supplies
        one. The slot's buffer is then checked against the request, zero sizes
        and no format taking the defaults, and a match is dequeued with an
        empty fence. */
    method DequeueBuffer(width: u32, height: u32, format: AndroidPixelFormat, usage: bv32, free: (AndroidStatus, i32))
      returns (r: Result<AndroidStatus>, slot: i32, fence: bool)
      modifies this
      ensures Settings() == old(Settings())
      ensures (width == 0) != (height == 0) ==> r == Ok(BadValue) && slot == 0 && !fence
      ensures (width == 0) == (height == 0) ==> slot == free.1
      ensures (width == 0) == (height == 0) && free.0 != StatusOk ==> r == Ok(free.0) && !fence
      ensures (width == 0) == (height == 0) && free.0 == StatusOk ==>
                && r == DequeueStatus(old(queue), slot, OrDefault(width, defaultWidth), OrDefault(height, defaultHeight),
                                      if format.FormatNone? then defaultFormat else format, usage)
                && fence == (r == Ok(StatusOk))
      ensures r == Ok(StatusOk) ==> 0 <= slot < |old(queue)| && queue == old(queue)[slot := old(queue)[slot].(state := Dequeued)]
      ensures r != Ok(StatusOk) ==> queue == old(queue)
    {
      fence := false;
      slot := 0;
      if (width != 0 && height == 0) || (width == 0 && height != 0) {
        return Ok(BadValue), slot, fence;
      }
      slot := -1;
      var status;
      status, slot := free.0, free.1;
      if status != StatusOk {
        return Ok(status), slot, fence;
      }
      var w := if width != 0 then width else defaultWidth;
      var h := if height != 0 then height else defaultHeight;
      var f := if !format.FormatNone? then format else defaultFormat;
      if slot < 0 || slot >= |queue| {
        return Err("array::at: slot out of range"), slot, fence;
      }
      var buffer := queue[slot];
      if buffer.graphicBuffer.None? {
        return Ok(NoMemory), slot, fence;
      }
      if !Compatible(buffer.graphicBuffer.value, f, w, h, usage) {
        return Ok(NoInit), slot, fence;
      }
      queue := queue[slot := buffer.(state := Dequeued)];
      fence := true;
      r := Ok(StatusOk);
    }

    /** QueueBuffer: the checks of QueueStatus, in that order; on success the
        default size and the pending count are reported. Nothing the producer
        keeps changes. */
    method QueueBuffer(slot: i32, crop: AndroidRect, scalingMode: ScalingMode, transform: Transform,
                       stickyTransform: Transform)
      returns (r: Result<AndroidStatus>, width: u32, height: u32, pendingBufferCount: nat)
      requires Valid()
      ensures r == QueueStatus(queue, slot, crop, scalingMode, transform, stickyTransform)
      ensures r == Ok(StatusOk) ==>
                && width == defaultWidth && height == defaultHeight
                && pendingBufferCount == CountQueued(queue[..activeSlotCount])
    {
      width, height, pendingBufferCount := 0, 0, 0;
      if !KnownScaling(scalingMode) || slot < 0 || slot >= |queue| {
        r := Ok(BadValue);
      } else if queue[slot].state != Dequeued || !queue[slot].wasBufferRequested {
        r := Ok(BadValue);
      } else if queue[slot].graphicBuffer.None? {
        r := Err(NullBufferError);
      } else if !CropFits(queue[slot].graphicBuffer.value, crop) {
        r := Ok(BadValue);
      } else if !KnownTransform(transform) {
        r := Err(UnknownTransformError);
      } else if stickyTransform != Identity {
        r := Err(StickyTransformError);
      } else {
        width := defaultWidth;
        height := defaultHeight;
        pendingBufferCount := GetPendingBufferCount();
        r := Ok(StatusOk);
      }
    }

    /** CancelBuffer: an in-range dequeued slot becomes free with frame number
        0; anything else changes nothing. */
    method CancelBuffer(slot: i32)
      modifies this
      ensures Settings() == old(Settings())
      ensures 0 <= slot < |old(queue)| && old(queue)[slot].state == Dequeued ==>
                queue == old(queue)[slot := old(queue)[slot].(state := Free, frameNumber := 0)]
      ensures !(0 <= slot < |old(queue)| && old(queue)[slot].state == Dequeued) ==> queue == old(queue)
    {
      if slot < 0 || slot >= |queue| {
        return;
      }
      if queue[slot].state != Dequeued {
        return;
      }
      queue := queue[slot := queue[slot].(state := Free, frameNumber := 0)];
    }

    /** Query: the defaults, the active slot count, and fixed answers for what
        the producer does not support; an unknown query is BadValue with 0. */
    function Query(query: NativeWindowQuery): (r: (AndroidStatus, u32))
      reads this
      requires Valid()
      ensures r.0 == BadValue <==> query.UnknownQuery?
      ensures r.0 != BadValue ==> r.0 == StatusOk
      ensures query == Width ==> r.1 == defaultWidth
      ensures query == Height ==> r.1 == defaultHeight
      ensures query == Format ==> r.1 == FormatCode(defaultFormat)
      ensures query == MaxBufferCount ==> r.1 == activeSlotCount
      ensures query in {MinUndequeuedBuffers, StickyTransform, ConsumerRunningBehind, ConsumerUsageBits} ==> r.1 == 0
    {
      match query
      case Width => (StatusOk, defaultWidth)
      case Height => (StatusOk, defaultHeight)
      case Format => (StatusOk, FormatCode(defaultFormat))
      case MinUndequeuedBuffers => (StatusOk, 0)
      case StickyTransform => (StatusOk, 0)
      case ConsumerRunningBehind => (StatusOk, 0)
      case ConsumerUsageBits => (StatusOk, 0)
      case MaxBufferCount => (StatusOk, activeSlotCount)
      case UnknownQuery(_) => (BadValue, 0)
    }

    /** Connect: refused when already connected or for an unknown API;
        otherwise the API is recorded and the defaults and pending count
        reported. */
    method Connect(api: NativeWindowApi) returns (status: AndroidStatus, width: u32, height: u32, pendingBufferCount: nat)
      requires Valid()
      modifies this
      ensures queue == old(queue) && activeSlotCount == old(activeSlotCount) && hasBufferCount == old(hasBufferCount)
      ensures defaultWidth == old(defaultWidth) && defaultHeight == old(defaultHeight)
      ensures defaultFormat == old(defaultFormat) && displayId == old(displayId)
      ensures status == StatusOk <==> old(connectedApi) == ApiNone && KnownApi(api)
      ensures status != StatusOk ==> status == BadValue && connectedApi == old(connectedApi)
      ensures status == StatusOk ==>
                && connectedApi == api && width == defaultWidth && height == defaultHeight
                && pendingBufferCount == CountQueued(queue[..activeSlotCount])
      ensures Valid()
    {
      width, height, pendingBufferCount := 0, 0, 0;
      if connectedApi != ApiNone {
        return BadValue, width, height, pendingBufferCount;
      }
      if !KnownApi(api) {
        return BadValue, width, height, pendingBufferCount;
      }
      connectedApi := api;
      width := defaultWidth;
      height := defaultHeight;
      pendingBufferCount := GetPendingBufferCount();
      status := StatusOk;
    }

    /** Disconnect: needs a known API equal to the connected one; then the
        connection is dropped and every slot is freed, its frame number set to
        the largest u32 and its buffer released. */
    method Disconnect(api: NativeWindowApi) returns (status: AndroidStatus)
      modifies this
      ensures status == StatusOk <==> KnownApi(api) && api == old(connectedApi)
      ensures status != StatusOk ==> status == BadValue && queue == old(queue) && Settings() == old(Settings())
      ensures status == StatusOk ==>
                && connectedApi == ApiNone
                && |queue| == |old(queue)|
                && (forall i :: 0 <= i < |queue| ==>
                      queue[i] == old(queue)[i].(state := Free, frameNumber := U32Max, graphicBuffer := None))
                && CountBuffers(queue) == 0
      ensures activeSlotCount == old(activeSlotCount) && hasBufferCount == old(hasBufferCount)
      ensures defaultWidth == old(defaultWidth) && defaultHeight == old(defaultHeight)
      ensures defaultFormat == old(defaultFormat) && displayId == old(displayId)
    {
      if !KnownApi(api) {
        return BadValue;
      }
      if api != connectedApi {
        return BadValue;
      }
      connectedApi := ApiNone;
      var i := 0;
      while i < |queue|
        invariant i <= |queue| == |old(queue)|
        invariant connectedApi == ApiNone
        invariant activeSlotCount == old(activeSlotCount) && hasBufferCount == old(hasBufferCount)
        invariant defaultWidth == old(defaultWidth) && defaultHeight == old(defaultHeight)
        invariant defaultFormat == old(defaultFormat) && displayId == old(displayId)
        invariant forall j :: 0 <= j < i ==>
                    queue[j] == old(queue)[j].(state := Free, frameNumber := U32Max, graphicBuffer := None)
        invariant forall j :: i <= j < |queue| ==> queue[j] == old(queue)[j]
      {
        queue := queue[i := queue[i].(state := Free, frameNumber := U32Max, graphicBuffer := None)];
        i := i + 1;
      }
      CountBuffersEmpty(queue);
      status := StatusOk;
    }

    /** SetPreallocatedBuffer: a slot outside the fixed slot count is
        BadValue; a buffer failing the checks throws; otherwise the slot is
        reset around the new buffer and its texture, and the active count
        becomes the number of slots holding a buffer. */
    method SetPreallocatedBuffer(slot: i32, buffer: GraphicBuffer, nvmap: NvMap.NvMap) returns (r: Result<AndroidStatus>)
      requires Valid()
      modifies this
      ensures Valid()
      ensures connectedApi == old(connectedApi) && displayId == old(displayId)
      ensures defaultWidth == old(defaultWidth) && defaultHeight == old(defaultHeight) && defaultFormat == old(defaultFormat)
      ensures !(0 <= slot < config.maxSlotCount) ==> r == Ok(BadValue)
      ensures 0 <= slot < config.maxSlotCount ==> (r.Ok? <==> PreallocatedTexture(config, nvmap, buffer).Ok?)
      ensures r.Ok? && 0 <= slot < config.maxSlotCount ==>
                && r.value == StatusOk
                && queue == old(queue)[slot := BufferSlot(Free, 0, false, Some(buffer),
                                                          Some(PreallocatedTexture(config, nvmap, buffer).value))]
                && activeSlotCount == hasBufferCount == CountBuffers(queue)
      ensures !(r.Ok? && r.value == StatusOk) ==> queue == old(queue) && Settings() == old(Settings())
    {
      if slot < 0 || slot >= config.maxSlotCount {
        return Ok(BadValue);
      }
      var texture := PreallocatedTexture(config, nvmap, buffer);
      if texture.Err? {
        return Err(texture.message);
      }
      queue := queue[slot := BufferSlot(Free, 0, false, Some(buffer), Some(texture.value))];
      var count := CountBuffers(queue);
      activeSlotCount, hasBufferCount := count, count;
      r := Ok(StatusOk);
    }

    /** SetDisplay: only a producer showing no display may pick one, by a
        name from the table. */
    method SetDisplay(name: string) returns (r: Result<()>)
      modifies this
      ensures queue == old(queue) && activeSlotCount == old(activeSlotCount) && hasBufferCount == old(hasBufferCount)
      ensures connectedApi == old(connectedApi)
      ensures defaultWidth == old(defaultWidth) && defaultHeight == old(defaultHeight) && defaultFormat == old(defaultFormat)
      ensures r.Ok? <==> old(displayId) == Null && DisplayByName(name).Some?
      ensures r.Ok? ==> displayId == DisplayByName(name).value
      ensures r.Err? ==> displayId == old(displayId)
    {
      if displayId != Null {
        return Err("Trying to change display type from non-null type");
      }
      var id := DisplayByName(name);
      if id.None? {
        return Err("The display with the given name doesn't exist");
      }
      displayId := id.value;
      r := Ok(());
    }

    /** CloseDisplay: the display is reset whatever it was. */
    method CloseDisplay()
      modifies this
      ensures queue == old(queue) && activeSlotCount == old(activeSlotCount) && hasBufferCount == old(hasBufferCount)
      ensures connectedApi == old(connectedApi)
      ensures defaultWidth == old(defaultWidth) && defaultHeight == old(defaultHeight) && defaultFormat == old(defaultFormat)
      ensures displayId == Null
    {
      displayId := Null;
    }
  }

  /** Storing a buffer in an empty slot adds one to the buffer count, and
      storing it over a held one leaves the count. */
  lemma StoringBufferCounts(slots: seq<BufferSlot>, i: nat, s: BufferSlot)
    requires i < |slots| && s.graphicBuffer.Some?
    ensures slots[i].graphicBuffer.None? ==> CountBuffers(slots[i := s]) == CountBuffers(slots) + 1
    ensures slots[i].graphicBuffer.Some? ==> CountBuffers(slots[i := s]) == CountBuffers(slots)
  {
    CountBuffersUpdate(slots, i, s);
  }
}
