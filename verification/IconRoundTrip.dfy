/** Saving a store and loading what was saved. */
module IconRoundTrip {
  import opened Basics
  import opened Icons
  import B = Bits

  /** What an icon is after two bytes have held its frame time. */
  function Loaded(icon: Icon): Icon {
    icon.(frameMillis := Saturated(icon.frameMillis))
  }

  function AllLoaded(icons: seq<Icon>): (r: seq<Icon>)
    ensures |r| == |icons|
  {
    seq(|icons|, i requires 0 <= i < |icons| => Loaded(icons[i]))
  }

  lemma {:induction false} PixelsBack(pixels: seq<Rgb>)
    ensures PixelsOf(PixelBytes(pixels)) == pixels
  {
    if pixels != [] {
      PixelsBack(pixels[1..]);
      assert PixelBytes(pixels)[3..] == PixelBytes(pixels[1..]);
    }
  }

  lemma {:induction false} BodyBack(icon: Icon, rest: seq<byte>)
    requires Storable(icon)
    ensures ReadBody(icon.id, IconHeader(icon) + PixelBytes(icon.pixels) + rest) == Some((Loaded(icon), rest))
  {
    hide PixelsOf, PixelBytes, IconOf, IconHeader, PixelSpan, Loaded;
    var header, pixels := IconHeader(icon), PixelBytes(icon.pixels);
    var data := header + pixels + rest;
    HeaderSays(icon);
    assert data[..9] == header;
    assert data[9..9 + |pixels|] == pixels && data[9 + |pixels|..] == rest;
    SpanIs(icon);
    IconIs(icon);
  }

  lemma HeaderSays(icon: Icon)
    requires Sized(icon.width, icon.height, icon.frames)
    ensures var header := IconHeader(icon); |header| == 9 && header[0] == icon.width && header[1] == icon.height && header[2] == icon.frames
  {
  }

  lemma StorableSized(icon: Icon)
    requires InGeometry(icon)
    ensures Sized(icon.width, icon.height, icon.frames)
  {
  }

  lemma SpanIs(icon: Icon)
    requires InGeometry(icon)
    ensures PixelSpan(icon.width, icon.height, icon.frames) == 3 * |icon.pixels|
  {
  }

  lemma {:induction false} IconIs(icon: Icon)
    requires Storable(icon)
    ensures |IconHeader(icon)| == 9 && IconOf(icon.id, IconHeader(icon), PixelBytes(icon.pixels)) == Loaded(icon)
  {
    hide PixelsOf, PixelBytes, InGeometry, Sized;
    StorableSized(icon);
    HeaderSays(icon);
    PixelsBack(icon.pixels);
    Halves(Saturated(icon.frameMillis));
  }

  lemma Halves(v: nat)
    requires v <= 0xFFFF
    ensures v % 256 + v / 256 * 256 == v
  {
  }

  /** An icon's bytes are read back as that icon, wherever they stand. */
  lemma {:induction false} IconBack(icon: Icon, rest: seq<byte>)
    requires Storable(icon)
    ensures ReadIcon(IconBytes(icon) + rest) == Some((Loaded(icon), rest))
  {
    hide ReadBody, IconHeader, PixelBytes, InGeometry;
    var body := IconHeader(icon) + PixelBytes(icon.pixels);
    var data := IconBytes(icon) + rest;
    var n := |icon.id|;
    assert data[0] == n;
    assert data[1..n + 1] == icon.id;
    assert data[n + 1..] == body + rest;
    BodyBack(icon, rest);
  }

  /** Icons that fit, put into a store one after the other, are all added. */
  lemma {:induction false} IconsBack(icons: seq<Icon>, s: Store, rest: seq<byte>)
    requires Sound(s) && forall i :: 0 <= i < |icons| ==> Storable(icons[i])
    requires UniqueIds(s.icons + icons) && |s.icons| + |icons| <= MAX_ICONS
    requires TotalBytes(s.icons) + TotalBytes(icons) <= MAX_TOTAL_BYTES
    ensures var (t, left) := ReadIcons(AllBytes(icons) + rest, |icons|, s);
      Sound(t) && t.icons == s.icons + AllLoaded(icons) && left == Some(rest)
    decreases |icons|
  {
    hide IconBytes, ReadIcon, Find, InGeometry, ByteSize, Storable, Put;
    if icons == [] {
      assert [] + rest == rest && s.icons + [] == s.icons;
    } else {
      var icon, later := icons[0], icons[1..];
      B.Assoc(IconBytes(icon), AllBytes(later), rest);
      IconBack(icon, AllBytes(later) + rest);
      assert icons == [icon] + later;
      var t := PutNew(s, icon, later);
      IconsBack(later, t, rest);
      assert t.icons + AllLoaded(later) == s.icons + ([Loaded(icon)] + AllLoaded(later));
      assert [Loaded(icon)] + AllLoaded(later) == AllLoaded(icons);
    }
  }

  /** A new icon with room for it is added at the end. */
  lemma {:induction false} PutNew(s: Store, icon: Icon, later: seq<Icon>) returns (t: Store)
    requires Sound(s) && Storable(icon) && UniqueIds(s.icons + ([icon] + later)) && |s.icons| < MAX_ICONS
    requires TotalBytes(s.icons) + ByteSize(icon) <= MAX_TOTAL_BYTES
    ensures Put(s, Loaded(icon)) == (t, Added) && Sound(t) && t.icons == s.icons + [Loaded(icon)]
    ensures UniqueIds(t.icons + later) && TotalBytes(t.icons) == TotalBytes(s.icons) + ByteSize(icon)
  {
    hide TotalBytes, Find;
    var all := s.icons + ([icon] + later);
    forall i | 0 <= i < |s.icons| ensures s.icons[i].id != icon.id {
      assert all[i].id != all[|s.icons|].id;
    }
    FindNone(s.icons, icon.id);
    t := Put(s, Loaded(icon)).0;
    PutSound(s, Loaded(icon));
    TotalConcat(s.icons, [Loaded(icon)]);
    TotalOne(Loaded(icon));
    forall i | 0 <= i < |all| ensures (t.icons + later)[i].id == all[i].id {
    }
  }

  lemma {:induction false} HeaderBack(icons: seq<Icon>, extra: seq<byte>)
    requires |icons| <= MAX_ICONS
    ensures var blob := Serialized(icons) + extra;
      |blob| >= 5 && blob[..3] == MAGIC && blob[3] == FORMAT_VERSION && blob[4] == |icons| && blob[5..] == AllBytes(icons) + extra
  {
    hide AllBytes;
  }

  lemma {:induction false} BlobBack(s: Store, into: Store, extra: seq<byte>)
    requires Sound(s)
    ensures var (t, ok) := Deserialized(into, Serialized(s.icons) + extra);
      Sound(t) && t.icons == AllLoaded(s.icons) && (ok <==> extra == [])
  {
    hide Serialized, ReadIcons, AllBytes, Storable;
    HeaderBack(s.icons, extra);
    var empty := Cleared(into);
    TotalNothing();
    assert [] + s.icons == s.icons && [] + AllLoaded(s.icons) == AllLoaded(s.icons);
    IconsBack(s.icons, empty, extra);
  }

  lemma TotalNothing()
    ensures TotalBytes([]) == 0
  {
  }

  /** Loading what was saved gives the same icons, in the same order, exactly when
      two bytes hold every frame time; longer ones come back as the longest. */
  lemma {:induction false} SavedLoads(s: Store, into: Store)
    requires Sound(s)
    ensures var (t, ok) := Deserialized(into, Serialized(s.icons));
      && ok && Sound(t) && t.icons == AllLoaded(s.icons) && t.bytesUsed == s.bytesUsed
      && (t.icons == s.icons <==> forall i :: 0 <= i < |s.icons| ==> s.icons[i].frameMillis <= 0xFFFF)
  {
    hide Serialized, Deserialized, Storable;
    assert Serialized(s.icons) + [] == Serialized(s.icons);
    BlobBack(s, into, []);
    LoadedBytes(s.icons);
    if AllLoaded(s.icons) == s.icons {
      forall i | 0 <= i < |s.icons| ensures s.icons[i].frameMillis <= 0xFFFF {
        assert AllLoaded(s.icons)[i] == s.icons[i];
      }
    }
  }

  lemma {:induction false} LoadedBytes(icons: seq<Icon>)
    ensures TotalBytes(AllLoaded(icons)) == TotalBytes(icons)
  {
    if icons != [] {
      LoadedBytes(icons[1..]);
      assert AllLoaded(icons)[1..] == AllLoaded(icons[1..]);
    }
  }

  // --- loading any bytes --------------------------------------------------------------------------

  /** Every frame time fits the two bytes it is saved in. */
  predicate Timely(icons: seq<Icon>) {
    forall i :: 0 <= i < |icons| ==> icons[i].frameMillis <= 0xFFFF
  }

  lemma {:induction false} PutTimely(s: Store, icon: Icon)
    requires Timely(s.icons) && icon.frameMillis <= 0xFFFF
    ensures Timely(Put(s, icon).0.icons)
  {
    hide InGeometry, ByteSize, Find;
  }

  lemma {:induction false} ReadTimely(data: seq<byte>)
    ensures var r := ReadIcon(data); r.Some? ==> r.value.0.frameMillis <= 0xFFFF
  {
    hide PixelsOf;
  }

  lemma {:induction false} ReadIconsLeave(data: seq<byte>, n: nat, s: Store)
    requires Sound(s) && Timely(s.icons)
    ensures var (t, rest) := ReadIcons(data, n, s);
      && Sound(t) && Timely(t.icons)
      && (t.icons == [] <==> rest == None || (n == 0 && s.icons == []))
    decreases n
  {
    hide Put, ReadIcon, Sound, Timely;
    if n > 0 {
      ClearedSound(s);
      var r := ReadIcon(data);
      if r.Some? {
        var t := Put(s, r.value.0).0;
        PutSound(s, r.value.0);
        ReadTimely(data);
        PutTimely(s, r.value.0);
        PutSomething(s, r.value.0);
        ClearedSound(t);
        ReadIconsLeave(r.value.1, n - 1, t);
      }
    }
  }

  lemma PutSomething(s: Store, icon: Icon)
    ensures var (t, r) := Put(s, icon); r == Added || r == Replaced ==> t.icons != []
  {
    hide InGeometry, ByteSize;
  }

  lemma ClearedSound(s: Store)
    ensures Sound(Cleared(s)) && Timely(Cleared(s).icons) && Cleared(s).icons == []
  {
  }

  // --- bytes after the last icon ---------------------------------------------------------------------

  lemma {:induction false} BodyExtends(id: seq<byte>, data: seq<byte>, extra: seq<byte>)
    requires ReadBody(id, data).Some?
    ensures ReadBody(id, data + extra) == Some((ReadBody(id, data).value.0, ReadBody(id, data).value.1 + extra))
  {
    hide PixelSpan, IconOf, Sized;
    var longer := data + extra;
    var bytes := PixelSpan(data[0], data[1], data[2]);
    assert longer[..9] == data[..9];
    assert longer[9..9 + bytes] == data[9..9 + bytes] && longer[9 + bytes..] == data[9 + bytes..] + extra;
  }

  lemma {:induction false} BodyCut(id: seq<byte>, data: seq<byte>, extra: seq<byte>)
    requires ReadBody(id, data + extra).Some? && |ReadBody(id, data + extra).value.1| >= |extra|
    ensures ReadBody(id, data).Some?
  {
    hide PixelSpan, IconOf, Sized;
  }

  /** What comes after an icon is only passed on. */
  lemma {:induction false} IconExtends(data: seq<byte>, extra: seq<byte>)
    requires ReadIcon(data).Some?
    ensures ReadIcon(data + extra) == Some((ReadIcon(data).value.0, ReadIcon(data).value.1 + extra))
    ensures |ReadIcon(data).value.1| < |data|
  {
    hide ReadBody;
    var n, longer := data[0], data + extra;
    assert longer[1..n + 1] == data[1..n + 1] && longer[n + 1..] == data[n + 1..] + extra;
    BodyExtends(data[1..n + 1], data[n + 1..], extra);
    BodyShrinks(data[1..n + 1], data[n + 1..]);
  }

  lemma BodyShrinks(id: seq<byte>, data: seq<byte>)
    ensures ReadBody(id, data).Some? ==> |ReadBody(id, data).value.1| <= |data|
  {
    hide PixelSpan, IconOf, Sized;
  }

  lemma {:induction false} IconCut(data: seq<byte>, extra: seq<byte>)
    requires ReadIcon(data + extra).Some? && |ReadIcon(data + extra).value.1| >= |extra|
    ensures ReadIcon(data).Some?
  {
    hide ReadBody;
    var longer := data + extra;
    var n := longer[0];
    BodyShrinks(longer[1..n + 1], longer[n + 1..]);
    var rest := longer[n + 1..];
    if n + 1 <= |data| {
      assert longer[1..n + 1] == data[1..n + 1] && rest == data[n + 1..] + extra;
      BodyCut(data[1..n + 1], data[n + 1..], extra);
    }
  }

  lemma {:induction false} IconsExtend(data: seq<byte>, n: nat, s: Store, extra: seq<byte>)
    requires ReadIcons(data, n, s).1.Some?
    ensures var (t, rest) := ReadIcons(data, n, s); ReadIcons(data + extra, n, s) == (t, Some(rest.value + extra)) && |rest.value| <= |data|
    decreases n
  {
    hide Put, ReadIcon;
    if n > 0 {
      IconExtends(data, extra);
      var (icon, rest) := ReadIcon(data).value;
      IconsExtend(rest, n - 1, Put(s, icon).0, extra);
    }
  }

  lemma {:induction false} IconsCut(data: seq<byte>, n: nat, s: Store, extra: seq<byte>)
    requires ReadIcons(data + extra, n, s).1.Some? && |ReadIcons(data + extra, n, s).1.value| >= |extra|
    ensures ReadIcons(data, n, s).1.Some?
    decreases n
  {
    hide Put, ReadIcon;
    if n > 0 {
      var (icon, rest) := ReadIcon(data + extra).value;
      IconsExtend(rest, n - 1, Put(s, icon).0, []);
      IconCut(data, extra);
      IconExtends(data, extra);
      IconsCut(ReadIcon(data).value.1, n - 1, Put(s, icon).0, extra);
    }
  }

  /** The blob goes on after one that is accepted and has icons. */
  ghost predicate GoesOn(s: Store, blob: seq<byte>) {
    exists n: nat :: n < |blob| && Deserialized(s, blob[..n]).1 && Deserialized(s, blob[..n]).0.icons != []
  }

  lemma {:induction false} AcceptedGoesOn(s: Store, blob: seq<byte>, n: nat)
    requires n < |blob| && Deserialized(s, blob[..n]).1
    ensures Deserialized(s, blob) == (Deserialized(s, blob[..n]).0, false)
  {
    hide ReadIcons;
    var short := blob[..n];
    assert short[..3] == blob[..3] && short[5..] + blob[n..] == blob[5..];
    IconsExtend(short[5..], short[4], Cleared(s), blob[n..]);
    assert [] + blob[n..] == blob[n..];
  }

  lemma {:induction false} KeptIsAccepted(s: Store, blob: seq<byte>) returns (n: nat)
    requires !Deserialized(s, blob).1 && Deserialized(s, blob).0.icons != []
    ensures n < |blob| && Deserialized(s, blob[..n]) == (Deserialized(s, blob).0, true)
  {
    hide ReadIcons;
    var empty := Cleared(s);
    ReadIconsFails(blob[5..], blob[4], empty);
    var (t, rest) := ReadIcons(blob[5..], blob[4], empty);
    IconsExtend(blob[5..], blob[4], empty, []);
    n := |blob| - |rest.value|;
    var short := blob[..n];
    assert short[..3] == blob[..3] && short[5..] + blob[n..] == blob[5..];
    IconsCut(short[5..], blob[4], empty, blob[n..]);
    IconsExtend(short[5..], blob[4], empty, blob[n..]);
    assert ReadIcons(short[5..], blob[4], empty).1.value == [];
  }

  lemma {:induction false} ReadIconsFails(data: seq<byte>, n: nat, s: Store)
    ensures var (t, rest) := ReadIcons(data, n, s); rest == None ==> t.icons == []
    decreases n
  {
    hide Put, ReadIcon;
    if n > 0 {
      var r := ReadIcon(data);
      if r.Some? {
        ReadIconsFails(r.value.1, n - 1, Put(s, r.value.0).0);
      }
    }
  }

  /** Whatever the bytes, the store is sound after loading them; and a load that
      failed has left it empty exactly when the blob does not go on after one that
      is accepted and has icons. */
  lemma {:induction false} LoadingIsSafe(s: Store, blob: seq<byte>)
    ensures var (t, ok) := Deserialized(s, blob);
      && Sound(t) && Timely(t.icons)
      && (!ok ==> (t.icons == [] <==> !GoesOn(s, blob)))
  {
    hide ReadIcons, Sound, Timely;
    ClearedSound(s);
    if |blob| >= 5 && blob[..3] == MAGIC && blob[3] == FORMAT_VERSION {
      ReadIconsLeave(blob[5..], blob[4], Cleared(s));
    }
    if !Deserialized(s, blob).1 {
      FailureLeaves(s, blob);
    }
  }

  lemma {:induction false} FailureLeaves(s: Store, blob: seq<byte>)
    requires !Deserialized(s, blob).1
    ensures Deserialized(s, blob).0.icons == [] <==> !GoesOn(s, blob)
  {
    hide Deserialized;
    if Deserialized(s, blob).0.icons != [] {
      var n := KeptIsAccepted(s, blob);
    } else if GoesOn(s, blob) {
      var n: nat :| n < |blob| && Deserialized(s, blob[..n]).1 && Deserialized(s, blob[..n]).0.icons != [];
      AcceptedGoesOn(s, blob, n);
    }
  }

  /** A store that was loaded from bytes of any kind, saved and loaded again, is the same. */
  lemma {:induction false} LoadedSavesBack(s: Store, blob: seq<byte>, into: Store)
    ensures var t := Deserialized(s, blob).0; var (u, ok) := Deserialized(into, Serialized(t.icons));
      ok && u.icons == t.icons && u.bytesUsed == t.bytesUsed
  {
    hide Deserialized, Serialized, Sound;
    LoadingIsSafe(s, blob);
    SavedLoads(Deserialized(s, blob).0, into);
  }

  /** Any saved store with anything after it is such a failed load that keeps its icons. */
  lemma {:induction false} TrailingBytesKeep(s: Store, into: Store, extra: seq<byte>)
    requires Sound(s) && s.icons != [] && extra != []
    ensures var (t, ok) := Deserialized(into, Serialized(s.icons) + extra); !ok && |t.icons| == |s.icons|
  {
    hide Serialized, Deserialized, Sound;
    BlobBack(s, into, extra);
  }
}
