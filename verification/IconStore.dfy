/** The icon store and the reader of its saved form, as they change their fields. */
module IconStore {
  import opened Basics
  import opened Icons
  import RT = IconRoundTrip
  import B = Bits

  /** Reads on through some bytes, never past their end. */
  class Reader {
    var data: seq<byte>
    var offset: nat

    ghost predicate Valid() reads this { offset <= |data| }

    ghost function Left(): seq<byte>
      requires Valid()
      reads this
    {
      data[offset..]
    }

    constructor (data: seq<byte>)
      ensures Valid() && Left() == data
    {
      this.data, offset := data, 0;
    }

    method Byte() returns (ok: bool, b: byte)
      requires Valid()
      modifies this
      ensures Valid() && ok == (old(Left()) != [])
      ensures ok ==> b == old(Left())[0] && Left() == old(Left())[1..]
      ensures !ok ==> Left() == old(Left())
    {
      if offset >= |data| {
        return false, 0;
      }
      b := data[offset];
      offset := offset + 1;
      ok := true;
    }

    method Pair() returns (ok: bool, v: nat)
      requires Valid()
      modifies this
      ensures Valid() && ok == (|old(Left())| >= 2)
      ensures ok ==> v == FromUint16(old(Left())[0], old(Left())[1]) && Left() == old(Left())[2..]
    {
      var low, high;
      v := 0;
      ok, low := Byte();
      if ok {
        ok, high := Byte();
        v := FromUint16(low, high);
      }
    }

    method Bytes(count: nat) returns (ok: bool, out: seq<byte>)
      requires Valid()
      modifies this
      ensures Valid() && ok == (count <= |old(Left())|)
      ensures ok ==> out == old(Left())[..count] && Left() == old(Left())[count..]
      ensures !ok ==> Left() == old(Left())
    {
      if count > |data| - offset {
        return false, [];
      }
      out := data[offset..offset + count];
      offset := offset + count;
      ok := true;
    }

    method AtEnd() returns (end: bool)
      requires Valid()
      ensures end == (Left() == [])
    {
      end := offset >= |data|;
    }
  }

  method ReadSize(reader: Reader) returns (ok: bool, width: nat, height: nat, frames: nat, flags: nat)
    requires reader.Valid()
    modifies reader
    ensures reader.Valid() && ok == (|old(reader.Left())| >= 4)
    ensures ok ==> old(reader.Left())[..4] == [width, height, frames, flags] && reader.Left() == old(reader.Left())[4..]
  {
    width, height, frames, flags := 0, 0, 0, 0;
    ok, width := reader.Byte();
    if ok { ok, height := reader.Byte(); }
    if ok { ok, frames := reader.Byte(); }
    if ok { ok, flags := reader.Byte(); }
  }

  method ReadColor(reader: Reader) returns (ok: bool, color: Rgb)
    requires reader.Valid()
    modifies reader
    ensures reader.Valid() && ok == (|old(reader.Left())| >= 3)
    ensures ok ==> color == Rgb(old(reader.Left())[0], old(reader.Left())[1], old(reader.Left())[2])
    ensures ok ==> reader.Left() == old(reader.Left())[3..]
  {
    var r: byte, g: byte, b: byte := 0, 0, 0;
    ok, r := reader.Byte();
    if ok { ok, g := reader.Byte(); }
    if ok { ok, b := reader.Byte(); }
    color := Rgb(r, g, b);
  }

  lemma PixelNext(bytes: seq<byte>, at: nat)
    requires at + 3 <= |bytes| && (|bytes| - at) % 3 == 0
    ensures PixelsOf(bytes[at..]) == [Rgb(bytes[at], bytes[at + 1], bytes[at + 2])] + PixelsOf(bytes[at + 3..])
  {
    assert bytes[at..][3..] == bytes[at + 3..];
  }

  /** The pixels in some bytes, three bytes each. */
  method Pixels(bytes: seq<byte>) returns (pixels: seq<Rgb>)
    requires |bytes| % 3 == 0
    ensures pixels == PixelsOf(bytes)
  {
    pixels := [];
    var p := 0;
    while p < |bytes| / 3
      invariant 0 <= p <= |bytes| / 3
      invariant pixels + PixelsOf(bytes[3 * p..]) == PixelsOf(bytes)
    {
      PixelNext(bytes, 3 * p);
      pixels := pixels + [Rgb(bytes[p * 3], bytes[p * 3 + 1], bytes[p * 3 + 2])];
      p := p + 1;
    }
  }

  /** What comes after an icon's id. */
  method ReadBodyFrom(reader: Reader, id: seq<byte>) returns (ok: bool, icon: Icon)
    requires reader.Valid()
    modifies reader
    ensures reader.Valid() && ok == ReadBody(id, old(reader.Left())).Some?
    ensures ok ==> ReadBody(id, old(reader.Left())) == Some((icon, reader.Left()))
  {
    hide PixelsOf, PixelSpan, IconOf, Sized;
    ghost var data := reader.Left();
    icon := Icon(id, 0, 0, 0, 0, false, Rgb(0, 0, 0), []);
    var width, height, frames, bytes;
    ok, width, height, frames, icon := ReadHead(reader, id);
    if !ok { return; }
    if !Sized(width, height, frames) {
      return false, icon;
    }
    ok, bytes := reader.Bytes(PixelSpan(width, height, frames));
    if !ok { return; }
    assert bytes == data[9..9 + PixelSpan(width, height, frames)];
    var pixels := Pixels(bytes);
    HeadThenPixels(id, data[..9], bytes);
    icon := icon.(pixels := pixels);
  }

  lemma HeadThenPixels(id: seq<byte>, header: seq<byte>, bytes: seq<byte>)
    requires |header| == 9 && |bytes| % 3 == 0
    ensures IconOf(id, header, bytes) == IconOf(id, header, []).(pixels := PixelsOf(bytes))
  {
  }

  /** An icon's size, times and colour, before its pixels. */
  method ReadHead(reader: Reader, id: seq<byte>) returns (ok: bool, width: nat, height: nat, frames: nat, icon: Icon)
    requires reader.Valid()
    modifies reader
    ensures reader.Valid() && ok == (|old(reader.Left())| >= 9)
    ensures ok ==> old(reader.Left())[..3] == [width, height, frames] && reader.Left() == old(reader.Left())[9..]
    ensures ok ==> icon == IconOf(id, old(reader.Left())[..9], [])
  {
    var flags, millis, color;
    icon := Icon(id, 0, 0, 0, 0, false, Rgb(0, 0, 0), []);
    ok, width, height, frames, flags := ReadSize(reader);
    if ok { ok, millis := reader.Pair(); }
    if ok { ok, color := ReadColor(reader); }
    if ok {
      icon := Icon(id, width, height, frames, if millis == 0 then 100 else millis, flags % 2 == 1, color, []);
    }
  }

  method ReadIconFrom(reader: Reader) returns (ok: bool, icon: Icon)
    requires reader.Valid()
    modifies reader
    ensures reader.Valid() && ok == ReadIcon(old(reader.Left())).Some?
    ensures ok ==> ReadIcon(old(reader.Left())) == Some((icon, reader.Left()))
  {
    hide ReadBody;
    ghost var data := reader.Left();
    var length, id;
    icon := Icon([], 0, 0, 0, 0, false, Rgb(0, 0, 0), []);
    ok, length := reader.Byte();
    if ok { ok, id := reader.Bytes(length); }
    if ok {
      assert id == data[1..length + 1] && reader.Left() == data[length + 1..];
      ok, icon := ReadBodyFrom(reader, id);
    }
  }

  /** How many icons a blob announces, if it starts as one of this format's. */
  method ReadHeader(reader: Reader) returns (ok: bool, count: byte)
    requires reader.Valid()
    modifies reader
    ensures reader.Valid()
    ensures ok == (|old(reader.Left())| >= 5 && old(reader.Left())[..3] == MAGIC && old(reader.Left())[3] == FORMAT_VERSION)
    ensures ok ==> count == old(reader.Left())[4] && reader.Left() == old(reader.Left())[5..]
  {
    var magic, version;
    count := 0;
    ok, magic := reader.Bytes(3);
    if !ok || magic != MAGIC { return false, 0; }
    ok, version := reader.Byte();
    if !ok || version != FORMAT_VERSION { return false, 0; }
    ok, count := reader.Byte();
  }

  method WrittenIcon(icon: Icon) returns (out: seq<byte>)
    ensures out == IconBytes(icon)
  {
    out := [Low(|icon.id|)];
    out := out + icon.id;
    out := out + IconHeader(icon);
    ghost var start := out;
    var p := 0;
    assert start + PixelBytes(icon.pixels) == IconBytes(icon);
    while p < |icon.pixels|
      invariant 0 <= p <= |icon.pixels|
      invariant out + PixelBytes(icon.pixels[p..]) == IconBytes(icon)
    {
      var pixel, rest := icon.pixels[p], icon.pixels[p + 1..];
      assert icon.pixels[p..] == [pixel] + rest;
      B.Assoc(out, [pixel.r, pixel.g, pixel.b], PixelBytes(rest));
      out := out + [pixel.r, pixel.g, pixel.b];
      p := p + 1;
    }
  }

  class IconStore {
    var icons: seq<Icon>
    var bytesUsed: int
    var revision: nat

    ghost function State(): Store reads this {
      Store(icons, bytesUsed, revision)
    }

    /** Holds of every store that can be reached. */
    ghost predicate Valid() reads this { Sound(State()) }

    constructor ()
      ensures Valid() && State() == Store([], 0, 0)
    {
      icons, bytesUsed, revision := [], 0, 0;
    }

    method Position(id: seq<byte>) returns (i: nat)
      ensures match Find(icons, id) case None => i == |icons| case Some(at) => i == at
    {
      i := 0;
      while i < |icons| && icons[i].id != id
        invariant 0 <= i <= |icons|
        invariant match Find(icons[i..], id) case None => Find(icons, id) == None case Some(at) => Find(icons, id) == Some(i + at)
      {
        assert icons[i..][1..] == icons[i + 1..];
        i := i + 1;
      }
    }

    method Put(given: Icon) returns (result: PutResult)
      requires Valid()
      modifies this
      ensures Valid() && (State(), result) == Icons.Put(old(State()), given)
    {
      hide Sound, InGeometry, Find;
      PutSound(State(), given);
      if given.id == [] || |given.id| > MAX_ID_BYTES {
        return InvalidId;
      }
      if !InGeometry(given) {
        return InvalidGeometry;
      }
      var icon := Timed(given);
      var incoming := ByteSize(icon);
      var index := Position(icon.id);
      var reclaimed := if index < |icons| then ByteSize(icons[index]) else 0;
      if bytesUsed - reclaimed + incoming > MAX_TOTAL_BYTES {
        return BudgetExceeded;
      }
      if index < |icons| {
        bytesUsed := bytesUsed - reclaimed + incoming;
        icons := icons[index := icon];
        revision := revision + 1;
        return Replaced;
      }
      if |icons| >= MAX_ICONS {
        return TooManyIcons;
      }
      bytesUsed := bytesUsed + incoming;
      icons := icons + [icon];
      revision := revision + 1;
      result := Added;
    }

    method Remove(id: seq<byte>) returns (removed: bool)
      requires Valid()
      modifies this
      ensures Valid() && removed == Find(old(icons), id).Some?
      ensures removed ==> icons == Without(old(icons), Find(old(icons), id).value) && revision == old(revision) + 1
      ensures !removed ==> State() == old(State())
    {
      hide Sound, Find;
      var i := Position(id);
      if i == |icons| {
        return false;
      }
      RemovedSound(State(), i);
      bytesUsed := bytesUsed - ByteSize(icons[i]);
      icons := icons[..i] + icons[i + 1..];
      revision := revision + 1;
      removed := true;
    }

    method Clear()
      modifies this
      ensures Valid() && State() == Cleared(old(State()))
    {
      RT.ClearedSound(State());
      icons, bytesUsed, revision := [], 0, revision + 1;
    }

    method Serialize() returns (out: seq<byte>)
      ensures out == Serialized(icons)
    {
      hide IconBytes;
      out := MAGIC + [FORMAT_VERSION, Low(|icons|)];
      var i := 0;
      while i < |icons|
        invariant 0 <= i <= |icons|
        invariant out + AllBytes(icons[i..]) == Serialized(icons)
      {
        var bytes := WrittenIcon(icons[i]);
        assert icons[i..] == [icons[i]] + icons[i + 1..];
        B.Assoc(out, bytes, AllBytes(icons[i + 1..]));
        out := out + bytes;
        i := i + 1;
      }
    }

    method Deserialize(blob: seq<byte>) returns (ok: bool)
      modifies this
      ensures Valid() && (State(), ok) == Deserialized(old(State()), blob)
    {
      hide Icons.Put, ReadIcon, Sound;
      Clear();
      var reader := new Reader(blob);
      var count;
      ok, count := ReadHeader(reader);
      if !ok {
        return;
      }
      ok := LoadIcons(reader, count);
      if ok {
        ok := reader.AtEnd();
      }
    }

    method LoadIcons(reader: Reader, count: nat) returns (ok: bool)
      requires Valid() && reader.Valid()
      modifies this, reader
      ensures Valid() && reader.Valid()
      ensures ReadIcons(old(reader.Left()), count, old(State())) == (State(), if ok then Some(reader.Left()) else None)
    {
      hide Icons.Put, ReadIcon, Sound;
      var i := 0;
      while i < count
        invariant 0 <= i <= count && Valid() && reader.Valid()
        invariant ReadIcons(reader.Left(), count - i, State()) == ReadIcons(old(reader.Left()), count, old(State()))
      {
        var icon, result;
        ok, icon := ReadIconFrom(reader);
        if !ok {
          Clear();
          return;
        }
        result := Put(icon);
        if result != Added && result != Replaced {
          Clear();
          return false;
        }
        i := i + 1;
      }
      ok := true;
    }
  }
}
