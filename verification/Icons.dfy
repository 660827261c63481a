/**
 The icon store of firmware/src/asset/IconStore.cpp as functions: what may be put
 in, the bytes it is saved as, and what those bytes are read back to.
 */
module Icons {
  import opened Basics

  const MAX_TOTAL_BYTES: nat := 262144
  const MAX_ICONS: nat := 192
  const MAX_DIMENSION: nat := 32
  const MAX_FRAMES: nat := 16
  const MAX_ID_BYTES: nat := 48
  const FORMAT_VERSION: byte := 1
  const MAGIC: seq<byte> := [78, 73, 67]

  datatype Icon = Icon(id: seq<byte>, width: int, height: int, frames: int, frameMillis: nat,
                       hasTransparency: bool, transparent: Rgb, pixels: seq<Rgb>)

  datatype Store = Store(icons: seq<Icon>, bytesUsed: int, revision: nat)

  datatype PutResult = Added | Replaced | InvalidId | InvalidGeometry | TooManyIcons | BudgetExceeded

  function ByteSize(icon: Icon): nat {
    |icon.pixels| * 3
  }

  function TotalBytes(icons: seq<Icon>): nat {
    if icons == [] then 0 else ByteSize(icons[0]) + TotalBytes(icons[1..])
  }

  function Find(icons: seq<Icon>, id: seq<byte>): (i: Option<nat>)
    ensures i.Some? ==> i.value < |icons| && icons[i.value].id == id
  {
    if icons == [] then None
    else if icons[0].id == id then Some(0)
    else
      match Find(icons[1..], id)
      case None => None
      case Some(i) => Some(i + 1)
  }

  predicate InGeometry(icon: Icon) {
    && 0 < icon.width <= MAX_DIMENSION && 0 < icon.height <= MAX_DIMENSION && 0 < icon.frames <= MAX_FRAMES
    && |icon.pixels| == icon.width * icon.height * icon.frames
  }

  function Timed(icon: Icon): Icon {
    if icon.frameMillis == 0 then icon.(frameMillis := 100) else icon
  }

  function Put(s: Store, given: Icon): (Store, PutResult) {
    if given.id == [] || |given.id| > MAX_ID_BYTES then (s, InvalidId)
    else if !InGeometry(given) then (s, InvalidGeometry)
    else
      var icon := Timed(given);
      var found := Find(s.icons, icon.id);
      var reclaimed := if found.Some? then ByteSize(s.icons[found.value]) else 0;
      var wanted := s.bytesUsed - reclaimed + ByteSize(icon);
      if wanted > MAX_TOTAL_BYTES then (s, BudgetExceeded)
      else if found.Some? then
        (Store(s.icons[found.value := icon], wanted, s.revision + 1), Replaced)
      else if |s.icons| >= MAX_ICONS then (s, TooManyIcons)
      else (Store(s.icons + [icon], wanted, s.revision + 1), Added)
  }

  function Cleared(s: Store): Store {
    Store([], 0, s.revision + 1)
  }

  // --- what every store keeps ---------------------------------------------------------------

  predicate Storable(icon: Icon) {
    icon.id != [] && |icon.id| <= MAX_ID_BYTES && InGeometry(icon) && icon.frameMillis > 0
  }

  predicate UniqueIds(icons: seq<Icon>) {
    forall i, j :: 0 <= i < j < |icons| ==> icons[i].id != icons[j].id
  }

  /** The bytes are counted exactly and within budget, ids are unique, and every
      icon is one that may be stored. */
  predicate Sound(s: Store) {
    && s.bytesUsed == TotalBytes(s.icons) <= MAX_TOTAL_BYTES && |s.icons| <= MAX_ICONS
    && UniqueIds(s.icons) && forall i :: 0 <= i < |s.icons| ==> Storable(s.icons[i])
  }

  lemma {:induction false} TotalConcat(a: seq<Icon>, b: seq<Icon>)
    ensures TotalBytes(a + b) == TotalBytes(a) + TotalBytes(b)
  {
    if a == [] {
      assert a + b == b;
    } else {
      TotalConcat(a[1..], b);
      assert (a + b)[1..] == a[1..] + b;
    }
  }

  lemma {:induction false} TotalSplit(icons: seq<Icon>, i: nat)
    requires i < |icons|
    ensures TotalBytes(icons) == TotalBytes(Without(icons, i)) + ByteSize(icons[i])
    ensures forall icon :: TotalBytes(icons[i := icon]) == TotalBytes(Without(icons, i)) + ByteSize(icon)
  {
    hide ByteSize;
    forall icon ensures TotalBytes(icons[i := icon]) == TotalBytes(Without(icons, i)) + ByteSize(icon) {
      TotalConcat(icons[..i] + [icon], icons[i + 1..]);
      TotalConcat(icons[..i], [icon]);
      TotalConcat(icons[..i], icons[i + 1..]);
      assert icons[i := icon] == icons[..i] + [icon] + icons[i + 1..];
    }
    assert icons[i := icons[i]] == icons;
  }

  lemma {:induction false} FindNone(icons: seq<Icon>, id: seq<byte>)
    ensures Find(icons, id) == None <==> forall i :: 0 <= i < |icons| ==> icons[i].id != id
  {
    if icons != [] {
      FindNone(icons[1..], id);
      assert icons == [icons[0]] + icons[1..];
    }
  }

  lemma {:induction false} PutSound(s: Store, icon: Icon)
    requires Sound(s)
    ensures Sound(Put(s, icon).0)
  {
    hide InGeometry, Find, ByteSize, TotalBytes;
    var found := Find(s.icons, icon.id);
    if found.Some? {
      TotalSplit(s.icons, found.value);
    } else {
      FindNone(s.icons, icon.id);
      TotalConcat(s.icons, [Timed(icon)]);
      TotalOne(Timed(icon));
    }
    TimedStorable(icon);
  }

  lemma TotalOne(icon: Icon)
    ensures TotalBytes([icon]) == ByteSize(icon) && TotalBytes([]) == 0
  {
    assert [icon][1..] == [];
  }

  lemma TimedStorable(icon: Icon)
    ensures icon.id != [] && |icon.id| <= MAX_ID_BYTES && InGeometry(icon) ==> Storable(Timed(icon))
    ensures Timed(icon).id == icon.id && (InGeometry(Timed(icon)) <==> InGeometry(icon))
  {
  }

  lemma {:induction false} RemovedSound(s: Store, i: nat)
    requires Sound(s) && i < |s.icons|
    ensures s.bytesUsed >= ByteSize(s.icons[i])
    ensures Sound(Store(Without(s.icons, i), s.bytesUsed - ByteSize(s.icons[i]), s.revision + 1))
  {
    hide InGeometry, ByteSize, TotalBytes;
    TotalSplit(s.icons, i);
    var rest := Without(s.icons, i);
    forall k | 0 <= k < |rest| ensures rest[k] == if k < i then s.icons[k] else s.icons[k + 1] {
    }
  }

  /** What a lookup by id finds. */
  function Lookup(icons: seq<Icon>, id: seq<byte>): Option<Icon> {
    match Find(icons, id)
    case None => None
    case Some(i) => Some(icons[i])
  }

  lemma {:induction false} LookupIs(icons: seq<Icon>, i: nat)
    requires UniqueIds(icons) && i < |icons|
    ensures Lookup(icons, icons[i].id) == Some(icons[i])
  {
    FindNone(icons, icons[i].id);
  }

  lemma {:induction false} LookupSame(before: seq<Icon>, after: seq<Icon>, id: seq<byte>)
    requires UniqueIds(before) && UniqueIds(after)
    requires forall i :: 0 <= i < |before| && before[i].id == id ==> before[i] in after
    requires forall i :: 0 <= i < |after| && after[i].id == id ==> after[i] in before
    ensures Lookup(before, id) == Lookup(after, id)
  {
    hide Find;
    FindNone(before, id);
    FindNone(after, id);
    var found := Find(before, id);
    if found.Some? {
      var k :| 0 <= k < |after| && after[k] == before[found.value];
      LookupIs(after, k);
    }
  }

  /** An icon that was taken is what its id finds from then on, timed; no other id
      finds anything else than before; and one that was refused changes nothing. */
  lemma {:induction false} PutIsFound(s: Store, icon: Icon, id: seq<byte>)
    requires Sound(s)
    ensures var (t, r) := Put(s, icon);
      if r == Added || r == Replaced then
        && Lookup(t.icons, id) == (if id == icon.id then Some(Timed(icon)) else Lookup(s.icons, id))
        && |t.icons| == |s.icons| + (if r == Added then 1 else 0)
      else t == s
  {
    hide Find, TotalBytes, ByteSize, InGeometry, Lookup;
    var (t, r) := Put(s, icon);
    PutSound(s, icon);
    if r == Added || r == Replaced {
      if id == icon.id {
        var at := if r == Added then |s.icons| else Find(s.icons, id).value;
        LookupIs(t.icons, at);
      } else {
        forall i | 0 <= i < |s.icons| && s.icons[i].id == id ensures s.icons[i] in t.icons {
          assert t.icons[i] == s.icons[i];
        }
        LookupSame(s.icons, t.icons, id);
      }
    }
  }

  /** The icons with one more, or with it in the place of the one of its id. */
  function With(icons: seq<Icon>, icon: Icon): seq<Icon> {
    if icons == [] then [icon]
    else if icons[0].id == icon.id then [icon] + icons[1..]
    else [icons[0]] + With(icons[1..], icon)
  }

  lemma {:induction false} WithIs(icons: seq<Icon>, icon: Icon)
    ensures With(icons, icon) ==
      match Find(icons, icon.id) { case Some(i) => icons[i := icon] case None => icons + [icon] }
  {
    if icons == [] {
      assert [] + [icon] == [icon];
    } else if icons[0].id == icon.id {
      assert [icon] + icons[1..] == icons[0 := icon];
    } else {
      WithIs(icons[1..], icon);
      match Find(icons[1..], icon.id) {
        case Some(i) => assert [icons[0]] + icons[1..][i := icon] == icons[i + 1 := icon];
        case None => assert [icons[0]] + (icons[1..] + [icon]) == icons + [icon];
      }
    }
  }

  predicate WellNamed(icon: Icon) {
    0 < |icon.id| <= MAX_ID_BYTES
  }

  /** An icon is taken exactly when it is well named and well formed and the store it
      would leave is within budget, which what it replaces no longer counts against. */
  lemma {:induction false} PutAcceptedIff(s: Store, icon: Icon)
    requires Sound(s)
    ensures var (t, r) := Put(s, icon); var next := With(s.icons, Timed(icon)); var may := WellNamed(icon) && InGeometry(icon);
      && (r == Added || r == Replaced <==> may && TotalBytes(next) <= MAX_TOTAL_BYTES && |next| <= MAX_ICONS)
      && (r == Added || r == Replaced ==> t.icons == next && (r == Replaced <==> |next| == |s.icons|))
      && (r == InvalidId <==> !WellNamed(icon)) && (r == InvalidGeometry <==> WellNamed(icon) && !InGeometry(icon))
      && (r == BudgetExceeded <==> may && TotalBytes(next) > MAX_TOTAL_BYTES)
      && (r == TooManyIcons <==> may && TotalBytes(next) <= MAX_TOTAL_BYTES && |next| > MAX_ICONS)
  {
    hide InGeometry, Find, ByteSize, TotalBytes, With;
    var timed := Timed(icon);
    WithIs(s.icons, timed);
    var found := Find(s.icons, icon.id);
    if found.Some? {
      TotalSplit(s.icons, found.value);
    } else {
      TotalConcat(s.icons, [timed]);
      TotalOne(timed);
    }
  }

  /** Taking an icon out is undone by nothing else than losing its id. */
  lemma {:induction false} RemovedIsGone(s: Store, i: nat, id: seq<byte>)
    requires Sound(s) && i < |s.icons|
    ensures Lookup(Without(s.icons, i), id) == if id == s.icons[i].id then None else Lookup(s.icons, id)
  {
    hide Find, TotalBytes, ByteSize, InGeometry, Lookup;
    RemovedSound(s, i);
    var rest := Without(s.icons, i);
    forall k | 0 <= k < |s.icons| && k != i ensures s.icons[k] in rest {
      assert rest[if k < i then k else k - 1] == s.icons[k];
    }
    if id == s.icons[i].id {
      LookupNone(rest, id);
    } else {
      LookupSame(s.icons, rest, id);
    }
  }

  lemma {:induction false} LookupNone(icons: seq<Icon>, id: seq<byte>)
    requires forall i :: 0 <= i < |icons| ==> icons[i].id != id
    ensures Lookup(icons, id) == None
  {
    FindNone(icons, id);
  }

  // --- saving ------------------------------------------------------------------------------------

  function Uint16(v: nat): seq<byte>
    requires v <= 0xFFFF
  {
    [v % 256, v / 256]
  }

  function FromUint16(low: int, high: int): int { low + high * 256 }

  function PixelBytes(pixels: seq<Rgb>): (bytes: seq<byte>)
    ensures |bytes| == 3 * |pixels|
  {
    if pixels == [] then [] else [pixels[0].r, pixels[0].g, pixels[0].b] + PixelBytes(pixels[1..])
  }

  function Low(v: int): byte { v % 256 }

  /** Two bytes hold no more than this. */
  function Saturated(millis: nat): nat {
    if millis > 0xFFFF then 0xFFFF else millis
  }

  function IconHeader(icon: Icon): seq<byte> {
    [Low(icon.width), Low(icon.height), Low(icon.frames), if icon.hasTransparency then 1 else 0]
    + Uint16(Saturated(icon.frameMillis)) + [icon.transparent.r, icon.transparent.g, icon.transparent.b]
  }

  function IconBytes(icon: Icon): seq<byte> {
    [Low(|icon.id|)] + (icon.id + (IconHeader(icon) + PixelBytes(icon.pixels)))
  }

  function AllBytes(icons: seq<Icon>): seq<byte> {
    if icons == [] then [] else IconBytes(icons[0]) + AllBytes(icons[1..])
  }

  function Serialized(icons: seq<Icon>): seq<byte> {
    MAGIC + [FORMAT_VERSION, Low(|icons|)] + AllBytes(icons)
  }

  // --- loading --------------------------------------------------------------------------------------

  function PixelsOf(bytes: seq<byte>): seq<Rgb>
    requires |bytes| % 3 == 0
    decreases |bytes|
  {
    if bytes == [] then [] else [Rgb(bytes[0], bytes[1], bytes[2])] + PixelsOf(bytes[3..])
  }

  /** An icon from the front of what is left, and what is left then. */
  function ReadIcon(data: seq<byte>): Option<(Icon, seq<byte>)> {
    if data == [] || |data| - 1 < data[0] then None
    else ReadBody(data[1..data[0] + 1], data[data[0] + 1..])
  }

  predicate Sized(width: int, height: int, frames: int) {
    0 < width <= MAX_DIMENSION && 0 < height <= MAX_DIMENSION && 0 < frames <= MAX_FRAMES
  }

  /** The bytes the pixels of all frames take. */
  function PixelSpan(width: nat, height: nat, frames: nat): (bytes: nat)
    ensures bytes % 3 == 0
  {
    width * height * frames * 3
  }

  /** What the nine bytes before the pixels and the pixels' bytes say. */
  function IconOf(id: seq<byte>, header: seq<byte>, pixels: seq<byte>): Icon
    requires |header| == 9 && |pixels| % 3 == 0
  {
    var millis := FromUint16(header[4], header[5]);
    Icon(id, header[0], header[1], header[2], if millis == 0 then 100 else millis, header[3] % 2 == 1,
         Rgb(header[6], header[7], header[8]), PixelsOf(pixels))
  }

  function ReadBody(id: seq<byte>, data: seq<byte>): Option<(Icon, seq<byte>)> {
    if |data| < 9 || !Sized(data[0], data[1], data[2]) then None
    else
      var bytes := PixelSpan(data[0], data[1], data[2]);
      if |data| - 9 < bytes then None
      else Some((IconOf(id, data[..9], data[9..9 + bytes]), data[9 + bytes..]))
  }

  /** The icons that follow, put into the store one by one. */
  function ReadIcons(data: seq<byte>, n: nat, s: Store): (Store, Option<seq<byte>>) {
    if n == 0 then (s, Some(data))
    else
      match ReadIcon(data)
      case None => (Cleared(s), None)
      case Some((icon, rest)) =>
        var (t, r) := Put(s, icon);
        if r != Added && r != Replaced then (Cleared(t), None) else ReadIcons(rest, n - 1, t)
  }

  /** The store from a blob, and whether it was all of it. */
  function Deserialized(s: Store, blob: seq<byte>): (Store, bool) {
    var empty := Cleared(s);
    if |blob| < 5 || blob[..3] != MAGIC || blob[3] != FORMAT_VERSION then (empty, false)
    else
      var (t, rest) := ReadIcons(blob[5..], blob[4], empty);
      (t, rest == Some([]))
  }
}
