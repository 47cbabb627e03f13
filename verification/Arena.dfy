// Clay's bump allocator.  Clay_MinMemorySize replays the allocations of
// Clay_Initialize on an empty arena to find how much memory to ask for.
module Arena {
  import opened Options
  import opened Bits

  const UINT32: nat := 0x1_0000_0000
  const SIZE_MAX: nat := 0xFFFF_FFFF_FFFF_FFFF

  // The structures Clay keeps arrays of.  Their sizes depend on the platform.
  datatype Struct =
    | Int32 | Bool | Char | ScrollContainerData | LayoutElementHashMapItem | MeasureTextCacheItem | MeasuredWord
    | ElementId | DebugElementData | LayoutElement | LayoutConfig | ElementConfig | TextElementConfig
    | AspectRatioElementConfig | ImageElementConfig | FloatingElementConfig | ClipElementConfig
    | CustomElementConfig | BorderElementConfig | SharedElementConfig | String | WrappedTextLine
    | LayoutElementTreeNode | LayoutElementTreeRoot | TextElementData | RenderCommand

  // One array to allocate.  The array of warnings has an allocator of its own.
  datatype Request = Table(capacity: nat, itemSize: nat) | Warnings(capacity: nat, itemSize: nat) {
    // capacity * itemSize is computed in 32 bits, except for the warnings.
    function Bytes(): nat {
      if Table? then (capacity * itemSize) % UINT32 else capacity * itemSize
    }

    // What the elements of a full array take.
    function Extent(): nat { capacity * itemSize }

    // Rounded up to a multiple of 64; the warnings skip ahead even if aligned.
    function Offset(next: nat): nat {
      if Table? then next + (64 - next % 64) % 64 else next + (64 - next % 64)
    }

    function End(next: nat): nat {
      Offset(next) + Bytes()
    }
  }

  lemma OffsetAligned(r: Request, next: nat)
    ensures next <= r.Offset(next) <= next + 64 && r.Offset(next) % 64 == 0
    ensures next <= r.Offset(next) <= r.End(next)
  {
  }

  // A table goes to the next multiple of 64 from here, the warnings to the next
  // one behind here.
  lemma OffsetIsLeast(r: Request, next: nat, m: nat)
    requires m % 64 == 0
    ensures r.Offset(next) <= m <==> if r.Table? then next <= m else next < m
  {
    var q, j := next / 64, m / 64;
    assert next == 64 * q + next % 64 && m == 64 * j;
    if r.Table? && next % 64 == 0 {
      assert r.Offset(next) == next;
    } else {
      assert r.Offset(next) == 64 * (q + 1);
    }
  }

  // Where a list of allocations that all succeed ends.
  function EndAll(next: nat, rs: seq<Request>): nat {
    if rs == [] then next else rs[|rs| - 1].End(EndAll(next, rs[..|rs| - 1]))
  }

  // Where allocation number k of the list goes.
  function OffsetAt(next: nat, rs: seq<Request>, k: nat): nat
    requires k < |rs|
  {
    rs[k].Offset(EndAll(next, rs[..k]))
  }

  lemma EndAllStep(next: nat, rs: seq<Request>, k: nat)
    requires k < |rs|
    ensures EndAll(next, rs[..k + 1]) == rs[k].End(EndAll(next, rs[..k])) == OffsetAt(next, rs, k) + rs[k].Bytes()
  {
    assert rs[..k + 1][..k] == rs[..k];
  }

  lemma {:induction false} EndAllMonotone(next: nat, rs: seq<Request>, j: nat, k: nat)
    requires j <= k <= |rs|
    ensures next <= EndAll(next, rs[..j]) <= EndAll(next, rs[..k])
    decreases k
  {
    if k > 0 {
      EndAllStep(next, rs, k - 1);
      OffsetAligned(rs[k - 1], EndAll(next, rs[..k - 1]));
      EndAllMonotone(next, rs, if j < k then j else k - 1, k - 1);
    }
  }

  // Blocks are aligned, lie between next and the end, and do not overlap.
  lemma BlockAt(next: nat, rs: seq<Request>, k: nat)
    requires k < |rs|
    ensures next <= OffsetAt(next, rs, k) && OffsetAt(next, rs, k) % 64 == 0
    ensures OffsetAt(next, rs, k) + rs[k].Bytes() <= EndAll(next, rs)
  {
    EndAllMonotone(next, rs, 0, k);
    EndAllStep(next, rs, k);
    OffsetAligned(rs[k], EndAll(next, rs[..k]));
    EndAllMonotone(next, rs, k + 1, |rs|);
    assert rs[..|rs|] == rs && rs[..0] == [];
  }

  lemma BlocksDisjoint(next: nat, rs: seq<Request>, j: nat, k: nat)
    requires j < k < |rs|
    ensures OffsetAt(next, rs, j) + rs[j].Bytes() <= OffsetAt(next, rs, k)
  {
    EndAllStep(next, rs, j);
    EndAllMonotone(next, rs, j + 1, k);
    OffsetAligned(rs[k], EndAll(next, rs[..k]));
  }

  // ------------------------------------------------------------ Clay's lists

  // Clay__InitializePersistentMemory
  function Persistent(elements: nat, words: nat, size: Struct -> nat): (rs: seq<Request>)
    ensures |rs| == 10
  {
    [Table(100, size(ScrollContainerData)), Table(elements, size(LayoutElementHashMapItem)),
     Table(elements, size(Int32)), Table(elements, size(MeasureTextCacheItem)), Table(elements, size(Int32)),
     Table(words, size(Int32)), Table(elements, size(Int32)), Table(words, size(MeasuredWord)),
     Table(elements, size(ElementId)), Table(elements, size(DebugElementData))]
  }

  // Clay__InitializeEphemeralMemory
  function Ephemeral(elements: nat, size: Struct -> nat): (rs: seq<Request>) {
    Elements(elements, size) + Configs(elements, size) + Tables(elements, size)
  }

  function Elements(elements: nat, size: Struct -> nat): (rs: seq<Request>) {
    [Table(elements, size(Int32)), Table(elements, size(LayoutElement)), Warnings(100, size(String))]
  }

  function Configs(elements: nat, size: Struct -> nat): (rs: seq<Request>) {
    [Table(elements, size(LayoutConfig)), Table(elements, size(ElementConfig)), Table(elements, size(TextElementConfig)),
     Table(elements, size(AspectRatioElementConfig)), Table(elements, size(ImageElementConfig)),
     Table(elements, size(FloatingElementConfig)), Table(elements, size(ClipElementConfig)),
     Table(elements, size(CustomElementConfig)), Table(elements, size(BorderElementConfig)),
     Table(elements, size(SharedElementConfig))]
  }

  function Tables(elements: nat, size: Struct -> nat): (rs: seq<Request>) {
    [Table(elements, size(String)), Table(elements, size(WrappedTextLine)),
     Table(elements, size(LayoutElementTreeNode)), Table(elements, size(LayoutElementTreeRoot)),
     Table(elements, size(Int32)), Table(elements, size(Int32)), Table(elements, size(TextElementData)),
     Table(elements, size(Int32)), Table(elements, size(RenderCommand)), Table(elements, size(Bool)),
     Table(elements, size(Int32)), Table(elements, size(Int32)), Table(elements, size(Int32)),
     Table(elements, size(Char))]
  }

  // The limits and sizes that Clay_MinMemorySize and Clay_Initialize share.
  datatype Config = Config(elements: nat, words: nat, size: Struct -> nat, contextSize: nat) {
    function PersistentEnd(): nat { EndAll(contextSize, Persistent(elements, words, size)) }

    function DryEnd(): nat { EndAll(PersistentEnd(), Ephemeral(elements, size)) }
  }

  lemma ConfigOrder(c: Config)
    ensures c.contextSize <= c.PersistentEnd() <= c.DryEnd()
  {
    hide Persistent, Ephemeral;
    var p, e := Persistent(c.elements, c.words, c.size), Ephemeral(c.elements, c.size);
    EndAllMonotone(c.contextSize, p, 0, |p|);
    EndAllMonotone(c.PersistentEnd(), e, 0, |e|);
    assert p[..|p|] == p && e[..|e|] == e;
  }

  // Struct sizes, the context's included, are 32-bit numbers.
  ghost predicate Sane(c: Config) {
    c.contextSize < UINT32 && c.size(String) < UINT32
  }

  // No array, padding included, takes more than this.
  const STEP: nat := 100 * UINT32 + 64

  lemma {:induction false} EndAllBound(next: nat, rs: seq<Request>)
    requires forall k | 0 <= k < |rs| :: rs[k].Bytes() + 64 <= STEP
    ensures EndAll(next, rs) <= next + |rs| * STEP
  {
    hide Request.Bytes, Request.Offset;
    if rs != [] {
      var m := |rs| - 1;
      EndAllBound(next, rs[..m]);
      OffsetAligned(rs[m], EndAll(next, rs[..m]));
    }
  }

  lemma BytesSmall(r: Request)
    requires r.Table? || (r.capacity <= 100 && r.itemSize < UINT32)
    ensures r.Bytes() + 64 <= STEP
  {
    if r.Warnings? { MulMonotone(r.capacity, 100, r.itemSize); }
  }

  // The dry run, on an arena of SIZE_MAX bytes, never fails.
  lemma DryRunFits(c: Config)
    requires Sane(c)
    ensures c.DryEnd() <= SIZE_MAX
  {
    hide Request.Bytes, EndAll;
    var p, e := Persistent(c.elements, c.words, c.size), Ephemeral(c.elements, c.size);
    forall k | 0 <= k < |p| ensures p[k].Bytes() + 64 <= STEP { BytesSmall(p[k]); }
    forall k | 0 <= k < |e| ensures e[k].Bytes() + 64 <= STEP { BytesSmall(e[k]); }
    EndAllBound(c.contextSize, p);
    EndAllBound(c.PersistentEnd(), e);
  }

  // ---------------------------------------------------- how much is enough

  // What Clay_MinMemorySize returns: 128 bytes more than the dry run used,
  // cut to 32 bits.
  function MinSize(c: Config): nat {
    (c.DryEnd() + 128) % UINT32
  }

  // It is enough exactly when the cut does not bite.
  lemma MinSizeSuffices(c: Config)
    ensures c.DryEnd() <= MinSize(c) <==> c.DryEnd() + 128 < UINT32
  {
  }

  // The padding of Clay_Initialize that moves a base address up to 64.
  function Shift(base: nat): nat {
    var s := 64 - base % 64;
    if s == 64 then 0 else s
  }

  lemma ShiftAligns(base: nat)
    ensures (base + Shift(base)) % 64 == 0 && Shift(base) < 64
  {
  }

  // A block of bytes reserved by a successful Clay_Initialize: the context, or
  // array k of either list.
  datatype Block = Context | PersistentArray(k: nat) | EphemeralArray(k: nat) {
    ghost predicate Exists(c: Config) {
      match this
      case Context => true
      case PersistentArray(k) => k < |Persistent(c.elements, c.words, c.size)|
      case EphemeralArray(k) => k < |Ephemeral(c.elements, c.size)|
    }

    ghost function From(c: Config): nat
      requires Exists(c)
    {
      match this
      case Context => 0
      case PersistentArray(k) => OffsetAt(c.contextSize, Persistent(c.elements, c.words, c.size), k)
      case EphemeralArray(k) => OffsetAt(c.PersistentEnd(), Ephemeral(c.elements, c.size), k)
    }

    ghost function To(c: Config): nat
      requires Exists(c)
    {
      match this
      case Context => c.contextSize
      case PersistentArray(k) => From(c) + Persistent(c.elements, c.words, c.size)[k].Bytes()
      case EphemeralArray(k) => From(c) + Ephemeral(c.elements, c.size)[k].Bytes()
    }

    // Where the array would end if all its elements were in use.
    ghost function FullTo(c: Config): nat
      requires Exists(c)
    {
      match this
      case Context => c.contextSize
      case PersistentArray(k) => From(c) + Persistent(c.elements, c.words, c.size)[k].Extent()
      case EphemeralArray(k) => From(c) + Ephemeral(c.elements, c.size)[k].Extent()
    }

    ghost predicate Before(that: Block) {
      || (Context? && !that.Context?)
      || (PersistentArray? && (that.EphemeralArray? || (that.PersistentArray? && k < that.k)))
      || (EphemeralArray? && that.EphemeralArray? && k < that.k)
    }
  }

  // A block starts at a multiple of 64 and ends before the dry run does.
  lemma BlockInside(c: Config, base: nat, x: Block)
    requires x.Exists(c)
    ensures (base + Shift(base) + x.From(c)) % 64 == 0 && x.To(c) <= c.DryEnd()
  {
    hide Block.From, Block.To, Config.DryEnd, Shift;
    BlockExtent(c, x);
    ShiftAligns(base);
    SumAligned(base + Shift(base), x.From(c));
  }

  lemma SumAligned(a: nat, b: nat)
    requires a % 64 == 0 && b % 64 == 0
    ensures (a + b) % 64 == 0
  {
  }

  lemma BlockExtent(c: Config, x: Block)
    requires x.Exists(c)
    ensures x.From(c) <= x.To(c) <= c.DryEnd() && x.From(c) % 64 == 0
  {
    hide Persistent, Ephemeral;
    ConfigOrder(c);
    match x
    case Context =>
    case PersistentArray(k) => BlockAt(c.contextSize, Persistent(c.elements, c.words, c.size), k);
    case EphemeralArray(k) => BlockAt(c.PersistentEnd(), Ephemeral(c.elements, c.size), k);
  }

  // Different blocks do not overlap.
  lemma BlocksApart(c: Config, x: Block, y: Block)
    requires x.Exists(c) && y.Exists(c) && x.Before(y)
    ensures x.To(c) <= y.From(c)
  {
    hide Persistent, Ephemeral;
    ConfigOrder(c);
    var p, e := Persistent(c.elements, c.words, c.size), Ephemeral(c.elements, c.size);
    if y.PersistentArray? { BlockAt(c.contextSize, p, y.k); }
    if y.EphemeralArray? { BlockAt(c.PersistentEnd(), e, y.k); }
    if x.PersistentArray? { BlockAt(c.contextSize, p, x.k); }
    if x.PersistentArray? && y.PersistentArray? { BlocksDisjoint(c.contextSize, p, x.k, y.k); }
    if x.EphemeralArray? { BlocksDisjoint(c.PersistentEnd(), e, x.k, y.k); }
  }

  // ------------------------------------------------------ room for everything

  ghost predicate NoneWraps(rs: seq<Request>) {
    forall k | 0 <= k < |rs| :: rs[k].Table? ==> rs[k].Extent() < UINT32
  }

  // No size of an array wraps in 32 bits.
  ghost predicate Narrow(c: Config) {
    NoneWraps(Persistent(c.elements, c.words, c.size)) && NoneWraps(Ephemeral(c.elements, c.size))
  }

  // The bytes reserved for all arrays are in the caller's buffer.
  ghost predicate AllReserved(c: Config, base: nat, size: nat) {
    forall x: Block | x.Exists(c) :: base + Shift(base) + x.To(c) <= base + size
  }

  // All elements of all arrays, the warnings counted as strings: from a multiple
  // of 64 on, inside the caller's buffer, and apart from each other.
  ghost predicate AllInside(c: Config, base: nat, size: nat) {
    forall x: Block | x.Exists(c) :: Inside(c, base, size, x)
  }

  ghost predicate Inside(c: Config, base: nat, size: nat, x: Block)
    requires x.Exists(c)
  {
    var start := base + Shift(base);
    start % 64 == 0 && (start + x.From(c)) % 64 == 0 && start + x.FullTo(c) <= base + size
  }

  ghost predicate AllApart(c: Config) {
    forall x: Block, y: Block | x.Exists(c) && y.Exists(c) && x.Before(y) :: x.FullTo(c) <= y.From(c)
  }

  // A size that does not wrap is what is reserved; one that does is 4 GiB more.
  lemma Wrapping(r: Request)
    ensures (r.Table? && r.Extent() >= UINT32) || r.Extent() == r.Bytes()
  {
  }

  lemma FullIsReserved(c: Config, x: Block)
    requires Narrow(c) && x.Exists(c)
    ensures x.FullTo(c) == x.To(c)
  {
    hide Persistent, Ephemeral, Request.Extent, Request.Bytes, OffsetAt, EndAll;
    match x
    case Context =>
    case PersistentArray(k) => Wrapping(Persistent(c.elements, c.words, c.size)[k]);
    case EphemeralArray(k) => Wrapping(Ephemeral(c.elements, c.size)[k]);
  }

  // An array whose size wraps has no place in a buffer of less than 4 GiB.
  lemma WrappedOutside(c: Config, base: nat, size: nat)
    requires AllInside(c, base, size) && size < UINT32
    ensures Narrow(c)
  {
    hide Persistent, Ephemeral, Request.Extent, Request.Bytes, OffsetAt, EndAll, Shift;
    var p, e := Persistent(c.elements, c.words, c.size), Ephemeral(c.elements, c.size);
    forall k | 0 <= k < |p| && p[k].Table? ensures p[k].Extent() < UINT32 {
      assert PersistentArray(k).Exists(c) && Inside(c, base, size, PersistentArray(k));
      assert PersistentArray(k).FullTo(c) == PersistentArray(k).From(c) + p[k].Extent();
    }
    forall k | 0 <= k < |e| && e[k].Table? ensures e[k].Extent() < UINT32 {
      assert EphemeralArray(k).Exists(c) && Inside(c, base, size, EphemeralArray(k));
      assert EphemeralArray(k).FullTo(c) == EphemeralArray(k).From(c) + e[k].Extent();
    }
  }

  lemma MinSizeSmall(c: Config)
    ensures MinSize(c) < UINT32
  {
    hide Config.DryEnd;
  }

  // The last array ends where the dry run ended.
  lemma LastBlock(c: Config) returns (x: Block)
    ensures x.Exists(c) && x.To(c) == c.DryEnd() <= x.FullTo(c)
  {
    ListsNonempty(c);
    hide Persistent, Ephemeral;
    var e := Ephemeral(c.elements, c.size);
    x := EphemeralArray(|e| - 1);
    EndAllStep(c.PersistentEnd(), e, |e| - 1);
    assert e[..|e|] == e;
    Wrapping(e[|e| - 1]);
    BytesWithin(e[|e| - 1]);
  }

  lemma BytesWithin(r: Request)
    ensures r.Bytes() <= r.Extent()
  {
  }

  // In a buffer of any size at any address, what is reserved is inside exactly
  // when the buffer has room for the dry run behind the shift of the base.
  lemma ReservedInside(c: Config, base: nat, size: nat)
    ensures AllReserved(c, base, size) <==> Shift(base) + c.DryEnd() <= size
  {
    hide Block.From, Block.To, Block.FullTo, Config.DryEnd, Shift, Block.Exists;
    var last := LastBlock(c);
    forall x: Block | x.Exists(c) ensures x.To(c) <= c.DryEnd() { BlockInside(c, base, x); }
  }

  // Clay_Initialize compares the size with the dry run only.  An unaligned
  // buffer of just that size passes, and does not hold all that is reserved.
  lemma ShiftedOut(c: Config, base: nat)
    requires base % 64 != 0
    ensures !AllReserved(c, base, c.DryEnd())
  {
    hide AllReserved, Config.DryEnd;
    ReservedInside(c, base, c.DryEnd());
  }

  // Below 4 GiB there is room for all elements of all arrays exactly when,
  // besides, no size of an array wraps.
  lemma RoomIn(c: Config, base: nat, size: nat)
    requires size < UINT32
    ensures AllInside(c, base, size) && AllApart(c) <==> Narrow(c) && Shift(base) + c.DryEnd() <= size
  {
    hide Narrow, Block.From, Block.To, Block.FullTo, Config.DryEnd, Shift, Block.Exists, Block.Before;
    if Narrow(c) && Shift(base) + c.DryEnd() <= size {
      forall x: Block | x.Exists(c) ensures Inside(c, base, size, x) {
        ShiftAligns(base);
        BlockInside(c, base, x);
        FullIsReserved(c, x);
      }
      forall x: Block, y: Block | x.Exists(c) && y.Exists(c) && x.Before(y) ensures x.FullTo(c) <= y.From(c) {
        BlocksApart(c, x, y);
        FullIsReserved(c, x);
      }
    }
    if AllInside(c, base, size) {
      WrappedOutside(c, base, size);
      var x := LastBlock(c);
      assert Inside(c, base, size, x);
    }
  }

  // With a buffer of MinSize bytes, at whatever address, there is room for all
  // elements of all arrays exactly when no size of an array and not the size of
  // the whole is cut to 32 bits.
  lemma RoomForAll(c: Config, base: nat)
    ensures AllInside(c, base, MinSize(c)) && AllApart(c) <==> Narrow(c) && c.DryEnd() + 128 < UINT32
  {
    hide Narrow, AllInside, AllApart, Config.DryEnd, Shift;
    MinSizeSmall(c);
    MinSizeSuffices(c);
    ShiftAligns(base);
    RoomIn(c, base, MinSize(c));
  }

  // ------------------------------------------------- where the condition fails

  lemma OneMore(a: int, b: int)
    ensures (a + 1) * b == a * b + b
  {
  }

  lemma {:induction false} EndAllWithin(next: nat, rs: seq<Request>, n: nat, most: nat)
    requires n <= |rs| && forall k | 0 <= k < n :: rs[k].Bytes() <= most
    ensures EndAll(next, rs[..n]) <= next + n * (most + 64)
  {
    hide Request.Bytes, Request.Offset;
    if n > 0 {
      EndAllWithin(next, rs, n - 1, most);
      OneMore(n - 1, most + 64);
      EndAllStep(next, rs, n - 1);
      OffsetAligned(rs[n - 1], EndAll(next, rs[..n - 1]));
    }
  }

  lemma {:induction false} EndAllAtLeast(next: nat, rs: seq<Request>, lo: nat, n: nat, least: nat)
    requires lo <= n <= |rs| && forall k | lo <= k < n :: rs[k].Bytes() >= least
    ensures EndAll(next, rs[..n]) >= (n - lo) * least
  {
    hide Request.Bytes, Request.Offset;
    if n > lo {
      EndAllAtLeast(next, rs, lo, n - 1, least);
      OneMore(n - 1 - lo, least);
      EndAllStep(next, rs, n - 1);
      OffsetAligned(rs[n - 1], EndAll(next, rs[..n - 1]));
    }
  }

  // 2^30 elements: the sizes of most arrays are multiples of 4 GiB.
  function Bytewise(s: Struct): nat {
    if s == LayoutElement then 80 else if s == Bool || s == Char then 1 else 4
  }

  const MANY := Config(0x4000_0000, 16384, Bytewise, 4096)

  lemma ManyPersistent()
    ensures |Persistent(0x4000_0000, 16384, Bytewise)| == 10
    ensures forall k | 0 <= k < 10 :: Persistent(0x4000_0000, 16384, Bytewise)[k].Bytes() <= 0x1_0000
  {
    hide Request.Bytes;
    ManySizes();
  }

  lemma ManyElements()
    ensures |Elements(0x4000_0000, Bytewise)| == 3 && Elements(0x4000_0000, Bytewise)[1] == Table(0x4000_0000, 80)
    ensures forall k | 0 <= k < 3 :: Elements(0x4000_0000, Bytewise)[k].Bytes() <= 0x1_0000
  {
    hide Request.Bytes, Bytewise;
    ManySizes();
    BytewiseIs();
  }

  lemma ManyConfigs()
    ensures |Configs(0x4000_0000, Bytewise)| == 10
    ensures forall k | 0 <= k < 10 :: Configs(0x4000_0000, Bytewise)[k].Bytes() <= 0x1_0000
  {
    hide Request.Bytes, Bytewise;
    ManySizes();
    BytewiseIs();
  }

  lemma ManyTables()
    ensures |Tables(0x4000_0000, Bytewise)| == 14
    ensures forall k | 0 <= k < 14 ::
              Tables(0x4000_0000, Bytewise)[k].Bytes() <= if k == 9 || k == 13 then 0x4000_0000 else 0x1_0000
  {
    hide Request.Bytes, Bytewise;
    ManySizes();
    BytewiseIs();
  }

  lemma ManyEphemeral()
    ensures |Ephemeral(0x4000_0000, Bytewise)| == 27
    ensures forall k | 0 <= k < 27 ::
              Ephemeral(0x4000_0000, Bytewise)[k].Bytes() <= if k == 22 || k == 26 then 0x4000_0000 else 0x1_0000
    ensures Ephemeral(0x4000_0000, Bytewise)[1] == Table(0x4000_0000, 80)
  {
    hide Request.Bytes, Bytewise, Elements, Configs, Tables;
    ManyElements();
    ManyConfigs();
    ManyTables();
  }

  lemma BytewiseIs()
    ensures forall s :: Bytewise(s) == if s == LayoutElement then 80 else if s == Bool || s == Char then 1 else 4
  {
  }

  lemma ManySizes()
    ensures Table(0x4000_0000, 4).Bytes() == 0 && Table(0x4000_0000, 80).Bytes() == 0
    ensures Table(0x4000_0000, 1).Bytes() == 0x4000_0000 && Table(16384, 4).Bytes() == 0x1_0000
    ensures Table(100, 4).Bytes() == 400 && Warnings(100, 4).Bytes() == 400
  {
  }

  lemma ManyEnd()
    ensures MANY.DryEnd() + 128 < UINT32
  {
    hide Request.Bytes, Request.Offset, Persistent, Ephemeral;
    ManyPersistent();
    ManyEphemeral();
    var p, e := Persistent(0x4000_0000, 16384, Bytewise), Ephemeral(0x4000_0000, Bytewise);
    var next := MANY.PersistentEnd();
    assert p[..|p|] == p && e[..27] == e;
    EndAllWithin(MANY.contextSize, p, |p|, 0x1_0000);
    EndAllWithin(next, e, 22, 0x1_0000);
    for k := 22 to 27
      invariant EndAll(next, e[..k]) <= next + 22 * 0x1_0040 + (k - 22) * 0x1_0040
                                        + (if k > 26 then 0x8000_0000 else if k > 22 then 0x4000_0000 else 0)
    {
      EndAllStep(next, e, k);
      OffsetAligned(e[k], EndAll(next, e[..k]));
    }
  }

  // Clay_Initialize reports success, and not a byte is reserved for the layout
  // elements.
  lemma SizeWraps()
    ensures MANY.DryEnd() + 128 < UINT32 && !Narrow(MANY)
    ensures EphemeralArray(1).Exists(MANY) && EphemeralArray(1).To(MANY) == EphemeralArray(1).From(MANY)
    ensures EphemeralArray(1).FullTo(MANY) == EphemeralArray(1).From(MANY) + 80 * 0x4000_0000
  {
    hide EndAll, Persistent, Ephemeral, OffsetAt;
    ManyEnd();
    ManyEphemeral();
    ManySizes();
    assert Ephemeral(0x4000_0000, Bytewise)[1].Extent() >= UINT32;
  }

  // 2^20 elements of 256 bytes: no array is cut, the whole is.
  const LARGE := Config(0x10_0000, 0x10_0000, s => 256, 4096)

  // Every table of its lists but those for scroll containers and warnings.
  ghost predicate Quarter(rs: seq<Request>) {
    forall k | 0 <= k < |rs| :: rs[k] == Table(0x10_0000, 256)
  }

  lemma LargeLists()
    ensures var size := LARGE.size;
            && |Elements(0x10_0000, size)| == 3 && |Configs(0x10_0000, size)| == 10 && |Tables(0x10_0000, size)| == 14
            && Quarter(Elements(0x10_0000, size)[..2]) && Quarter(Configs(0x10_0000, size)) && Quarter(Tables(0x10_0000, size))
            && Elements(0x10_0000, size)[2] == Warnings(100, 256)
  {
  }

  lemma LargePersistent()
    ensures var rs := Persistent(0x10_0000, 0x10_0000, LARGE.size); |rs| == 10 && rs[0] == Table(100, 256) && Quarter(rs[1..])
  {
  }

  lemma LargeNarrow()
    ensures Narrow(LARGE) && |Ephemeral(0x10_0000, LARGE.size)| == 27
    ensures forall k | 3 <= k < 27 :: Ephemeral(0x10_0000, LARGE.size)[k] == Table(0x10_0000, 256)
  {
    LargeLists();
    LargePersistent();
    hide Elements, Configs, Tables, Persistent;
    var p, a := Persistent(0x10_0000, 0x10_0000, LARGE.size), Elements(0x10_0000, LARGE.size);
    forall k | 0 <= k < |p| ensures p[k].Table? ==> p[k].Extent() < UINT32 {
      if k > 0 { assert p[k] == p[1..][k - 1]; }
    }
    forall k | 0 <= k < 2 ensures a[k] == Table(0x10_0000, 256) {
      assert a[k] == a[..2][k];
    }
  }

  lemma LargeBytes()
    ensures Narrow(LARGE) && |Ephemeral(0x10_0000, LARGE.size)| == 27
    ensures forall k | 3 <= k < 27 :: Ephemeral(0x10_0000, LARGE.size)[k].Bytes() >= 0x1000_0000
  {
    hide Ephemeral, Narrow;
    LargeNarrow();
  }

  lemma WholeIsCut()
    ensures Narrow(LARGE) && LARGE.DryEnd() + 128 >= UINT32 && MinSize(LARGE) < LARGE.DryEnd()
  {
    hide Request.Bytes, Request.Offset, Persistent, Ephemeral, Narrow;
    LargeBytes();
    var e := Ephemeral(0x10_0000, LARGE.size);
    assert e[..27] == e;
    EndAllAtLeast(LARGE.PersistentEnd(), e, 3, 27, 0x1000_0000);
    MinSizeSuffices(LARGE);
  }

  // The array of warnings holds pairs of strings but is reserved as one of
  // strings.  Nothing is ever stored in it; full, it would not fit.
  lemma WarningsTooShort(c: Config)
    requires c.size(String) > 0
    ensures EphemeralArray(2).Exists(c) && EphemeralArray(3).Exists(c)
    ensures EphemeralArray(2).From(c) + 100 * (2 * c.size(String)) > EphemeralArray(3).From(c)
  {
    var e := Ephemeral(c.elements, c.size);
    assert e[2] == Warnings(100, c.size(String)) && e[3] == Table(c.elements, c.size(LayoutConfig));
    hide Ephemeral, Persistent;
    EndAllStep(c.PersistentEnd(), e, 2);
  }

  // ------------------------------------------------------------------ object

  // Clay_Arena, with the context's bookkeeping of it.
  class Memory {
    const memory: nat
    const capacity: nat
    var next: nat
    var resetOffset: nat
    var persistent: seq<Option<nat>>
    var ephemeral: seq<Option<nat>>

    constructor (memory: nat, capacity: nat)
      ensures this.memory == memory && this.capacity == capacity && next == 0
    {
      this.memory, this.capacity := memory, capacity;
      next, resetOffset := 0, 0;
      persistent, ephemeral := [], [];
    }

    method Allocate(r: Request) returns (p: Option<nat>)
      modifies this`next
      ensures p == if r.End(old(next)) <= capacity then Some(memory + r.Offset(old(next))) else None
      ensures next == if r.End(old(next)) <= capacity then r.End(old(next)) else old(next)
    {
      var offset := r.Offset(next);
      if offset + r.Bytes() <= capacity {
        next := offset + r.Bytes();
        p := Some(memory + offset);
      } else {
        p := None;
      }
    }

    // The arrays of a list, one after the other.
    method AllocateAll(rs: seq<Request>) returns (ps: seq<Option<nat>>)
      modifies this`next
      ensures |ps| == |rs|
      ensures NoneFailed(ps) <==> EndAll(old(next), rs) <= capacity || rs == []
      ensures NoneFailed(ps) ==> next == EndAll(old(next), rs) && Placed(ps, memory, old(next), rs)
    {
      ps := [];
      for k := 0 to |rs|
        invariant |ps| == k
        invariant NoneFailed(ps) <==> EndAll(old(next), rs[..k]) <= capacity || k == 0
        invariant NoneFailed(ps) ==> next == EndAll(old(next), rs[..k])
        invariant NoneFailed(ps) ==> forall i: nat | i < k :: ps[i] == Some(memory + OffsetAt(old(next), rs, i))
      {
        EndAllStep(old(next), rs, k);
        EndAllMonotone(old(next), rs, k, k + 1);
        var p := Allocate(rs[k]);
        NoneFailedAppend(ps, p);
        ps := ps + [p];
      }
      assert rs[..|rs|] == rs;
    }

    // Everything is in the place the dry run found for it.
    ghost predicate Ready(c: Config)
      reads this
    {
      && resetOffset == c.PersistentEnd() && next == c.DryEnd() <= capacity
      && Placed(persistent, memory, c.contextSize, Persistent(c.elements, c.words, c.size))
      && Placed(ephemeral, memory, c.PersistentEnd(), Ephemeral(c.elements, c.size))
    }

    // Clay__Context_Allocate_Arena and the two initializers; false if any
    // allocation failed.
    method Layout(c: Config) returns (ok: bool)
      requires next == 0
      modifies this
      ensures ok <==> c.DryEnd() <= capacity
      ensures ok ==> Ready(c)
    {
      hide Persistent, Ephemeral, EndAll, Placed;
      ConfigOrder(c);
      if c.contextSize > capacity {
        return false;
      }
      next := next + c.contextSize;
      persistent := AllocateAll(Persistent(c.elements, c.words, c.size));
      resetOffset := next;
      ok := AllPlaced(persistent);
      next := resetOffset;
      ephemeral := AllocateAll(Ephemeral(c.elements, c.size));
      var ok' := AllPlaced(ephemeral);
      ListsNonempty(c);
      ok := ok && ok';
    }

    // Clay_BeginLayout, as far as memory goes: every frame finds the same
    // arrays in the same places.
    method BeginLayout(c: Config)
      requires Ready(c)
      modifies this
      ensures Ready(c) && ephemeral == old(ephemeral) && persistent == old(persistent)
    {
      hide Persistent, Ephemeral, EndAll, OffsetAt;
      next := resetOffset;
      ephemeral := AllocateAll(Ephemeral(c.elements, c.size));
      PlacedUnique(old(ephemeral), ephemeral, memory, c.PersistentEnd(), Ephemeral(c.elements, c.size));
    }
  }

  // Clay_MinMemorySize
  method MinMemorySize(c: Config) returns (n: nat)
    requires Sane(c)
    ensures n == MinSize(c)
  {
    DryRunFits(c);
    var dry := new Memory(0, SIZE_MAX);
    var ok := dry.Layout(c);
    n := (dry.next + 128) % UINT32;
  }

  // Clay_Initialize on a buffer of `size` bytes at `base`.  Success does not mean
  // that the buffer holds the arrays: the shift of the base comes on top.
  method Initialize(base: nat, size: nat, c: Config) returns (m: Memory, ok: bool)
    ensures fresh(m) && m.memory == base + Shift(base) && m.capacity == size
    ensures ok <==> c.DryEnd() <= size
    ensures ok ==> m.Ready(c)
    ensures AllReserved(c, base, size) <==> Shift(base) + c.DryEnd() <= size
    ensures size < UINT32 ==> (AllInside(c, base, size) && AllApart(c) <==> Narrow(c) && Shift(base) + c.DryEnd() <= size)
  {
    hide Config.DryEnd, Narrow, AllReserved, AllInside, AllApart, Shift;
    ReservedInside(c, base, size);
    if size < UINT32 { RoomIn(c, base, size); }
    m := new Memory(base + Shift(base), size);
    ok := m.Layout(c);
  }

  // The whole procedure: ask for the size, allocate it, initialize.  It reports
  // success exactly when the dry run stays 128 bytes below 4 GiB; there is room
  // for all elements of all arrays exactly when, besides, no array's size wraps.
  method InitializeWithMinimum(base: nat, c: Config) returns (m: Memory, ok: bool)
    requires Sane(c)
    ensures ok <==> c.DryEnd() + 128 < UINT32
    ensures fresh(m) && m.memory == base + Shift(base) && (ok ==> m.Ready(c))
    ensures AllInside(c, base, MinSize(c)) && AllApart(c) <==> ok && Narrow(c)
  {
    hide Config.DryEnd, Narrow, AllInside, AllApart;
    var size := MinMemorySize(c);
    MinSizeSuffices(c);
    RoomForAll(c, base);
    m, ok := Initialize(base, size, c);
  }

  method AllPlaced(ps: seq<Option<nat>>) returns (ok: bool)
    ensures ok <==> NoneFailed(ps)
  {
    ok := true;
    for k := 0 to |ps|
      invariant ok <==> forall i: nat | i < k :: ps[i].Some?
    {
      ok := ok && ps[k].Some?;
    }
  }

  lemma ListsNonempty(c: Config)
    ensures Persistent(c.elements, c.words, c.size) != [] && Ephemeral(c.elements, c.size) != []
  {
  }

  lemma PlacedUnique(ps: seq<Option<nat>>, qs: seq<Option<nat>>, memory: nat, next: nat, rs: seq<Request>)
    requires Placed(ps, memory, next, rs) && Placed(qs, memory, next, rs)
    ensures ps == qs
  {
  }

  ghost predicate NoneFailed(ps: seq<Option<nat>>) {
    forall i: nat | i < |ps| :: ps[i].Some?
  }

  ghost predicate Placed(ps: seq<Option<nat>>, memory: nat, next: nat, rs: seq<Request>) {
    |ps| == |rs| && forall i: nat | i < |rs| :: ps[i] == Some(memory + OffsetAt(next, rs, i))
  }

  lemma NoneFailedAppend(ps: seq<Option<nat>>, p: Option<nat>)
    ensures NoneFailed(ps + [p]) <==> NoneFailed(ps) && p.Some?
  {
    assert forall i: nat | i < |ps| :: (ps + [p])[i] == ps[i];
    assert (ps + [p])[|ps|] == p;
  }
}
