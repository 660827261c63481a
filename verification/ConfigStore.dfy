/** ConfigStore of firmware/src/config/Config.cpp: the steps of ConfigRecord and ConfigRuns. */
module ConfigStore {
  import opened Basics
  import opened Checksum
  import opened ConfigRecord
  import opened ConfigRuns
  import opened JsonGrammar
  import opened JsonReader
  import opened JsonText
  import opened D = JsonDocument
  import A = JsonAcceptance
  import S = JsonSights

  /** A small value under each key; a write that lands replaces it whole. */
  class Storage {
    const limit: nat
    var values: map<string, string>

    constructor (limit: nat)
      ensures this.limit == limit && values == map[]
    {
      this.limit, values := limit, map[];
    }

    method Read(key: string) returns (found: bool, value: string)
      ensures found == (key in values) && value == if found then values[key] else ""
    {
      found := key in values;
      value := if found then values[key] else "";
    }

    method Write(key: string, value: string, lands: bool)
      modifies this
      ensures values == if lands then old(values)[key := value] else old(values)
    {
      if lands {
        values := values[key := value];
      }
    }
  }

  /** crc32ToHex: a digit for every four bits, from the top. */
  method ChecksumText(body: string) returns (text: string)
    ensures text == Sum(body)
  {
    hide Crc, HexText, Nibble;
    var sum := Crc32(Octets(body));
    text := "";
    var i := 32;
    HexNothing(sum);
    while i > 0
      invariant 0 <= i <= 32 && i % 4 == 0
      invariant HexText(sum[i..]) == text
    {
      i := i - 4;
      HexStep(sum, i);
      text := text + [Nibble(sum[i..i + 4])];
    }
    assert sum[0..] == sum;
  }

  lemma {:induction false} HexStep(bits: seq<bool>, i: nat)
    requires i + 4 <= |bits| && i % 4 == 0 == |bits| % 4
    ensures HexText(bits[i..]) == HexText(bits[i + 4..]) + [Nibble(bits[i..i + 4])]
  {
    hide Nibble;
    assert bits[i..][4..] == bits[i + 4..] && bits[i..][..4] == bits[i..i + 4];
  }

  lemma HexNothing(bits: seq<bool>)
    ensures HexText(bits[|bits|..]) == ""
  {
  }

  /** The value of the first member with a name, if index is an object that has one. */
  method Member(doc: Document, index: int, name: string) returns (child: int)
    requires doc.Valid()
    ensures doc.IsObject(index) ==> WellFormedMembers(doc.Seen(index).value.members)
    ensures var found := if doc.IsObject(index) then FirstNamed(doc.Seen(index).value.members, name) else None;
      if found == None then child == -1
      else doc.InRange(child) && doc.Seen(child).ValueSight? && doc.Seen(child).value == found.value
  {
    hide S.Locate, S.MemberAt, Flatten, TreeOf, FirstNamed;
    if doc.IsObject(index) {
      doc.TokenSeen(index);
    }
    child := doc.Find(index, name);
    if doc.IsObject(index) {
      ghost var ms := doc.Seen(index).value.members;
      if child == -1 {
        NoneNamed(ms, name);
      } else {
        ghost var i: nat :| doc.ValueOfFirst(index, name, i, child);
        FirstIs(ms, name, i);
      }
    }
  }

  lemma {:induction false} NoneNamed(ms: seq<JsonGrammar.Member>, name: string)
    requires WellFormedMembers(ms) && forall i :: 0 <= i < |ms| ==> !Named(ms[i], name)
    ensures FirstNamed(ms, name) == None
  {
    hide StringBody, Decode, WellFormed;
    if ms != [] {
      assert WellFormedMember(ms[0]) && !Named(ms[0], name);
      NoneNamed(ms[1..], name);
    }
  }

  lemma {:induction false} FirstIs(ms: seq<JsonGrammar.Member>, name: string, i: nat)
    requires WellFormedMembers(ms) && IsFirstNamed(ms, name, i)
    ensures FirstNamed(ms, name) == Some(ms[i].value)
  {
    hide StringBody, Decode, WellFormed;
    assert WellFormedMember(ms[0]);
    if i > 0 {
      assert !Named(ms[0], name);
      FirstIs(ms[1..], name, i - 1);
    }
  }

  /** What a stored text is good for; viaDouble is what strtod makes of a version
      number that has a fraction or an exponent. */
  method Deserialize(payload: string, viaDouble: string -> int) returns (r: Reading)
    ensures r == ReadingOf(payload, viaDouble)
  {
    hide A.ReadDocument, A.IsJson, A.DocumentText, S.Locate, Sum, Judged, WellFormed, Text, Flatten, Size;
    var tokens := new Token[MAX_TOKENS];
    var doc := new Document(tokens);
    var e := doc.Parse(payload, MAX_DEPTH, MAX_INPUT_BYTES);
    if e != NoError {
      return Unusable;
    }
    r := ReadEnvelope(doc, viaDouble);
  }

  /** What a parsed record is good for. */
  method ReadEnvelope(doc: Document, viaDouble: string -> int) returns (r: Reading)
    requires doc.Valid() && doc.shown.Some?
    ensures WellFormed(doc.shown.value.value) && r == Judged(doc.shown.value.value, viaDouble)
  {
    hide A.IsJson, A.DocumentText, S.Locate, Sum, Versioned, FirstNamed, Text, Decode, StringBody, Flatten, Size, TreeOf;
    RootSeen(doc);
    var checksum := Member(doc, 0, "checksum");
    var body := Member(doc, 0, "body");
    KindSays(doc, checksum);
    KindSays(doc, body);
    if doc.Type(checksum) != String || doc.Type(body) != Object {
      return Unusable;
    }
    var matches := SumMatches(doc, checksum, body);
    if !matches {
      return Unusable;
    }
    r := ReadVersion(doc, body, viaDouble);
  }

  /** Whether the checksum given is the one of the body's text. */
  method SumMatches(doc: Document, checksum: int, body: int) returns (matches: bool)
    requires doc.Valid() && doc.InRange(checksum) && doc.Seen(checksum).ValueSight? && doc.Seen(checksum).value.Str?
    requires doc.IsObject(body)
    ensures StringBody(doc.Seen(checksum).value.raw)
    ensures matches <==> Decode(doc.Seen(checksum).value.raw) == Sum(Text(doc.Seen(body).value))
  {
    hide S.Locate, Sum, Text, Decode, StringBody, Flatten;
    var expected := doc.ToString(checksum, "");
    doc.RawSeen(body);
    var actual := ChecksumText(doc.Raw(body));
    matches := expected == actual;
  }

  /** A token's type says what kind of value it stands for. */
  lemma KindSays(doc: Document, index: int)
    requires doc.Valid()
    ensures doc.InRange(index) && doc.Seen(index).ValueSight? ==>
      var v := doc.Seen(index).value; (doc.Type(index) == String <==> v.Str?) && (doc.Type(index) == Object <==> v.Obj?)
    ensures !doc.InRange(index) ==> doc.Type(index) == Undefined
  {
    hide S.Locate, Flatten;
  }

  lemma RootSeen(doc: Document)
    requires doc.Valid() && doc.shown.Some?
    ensures doc.InRange(0) && doc.Seen(0) == S.ValueSight(doc.shown.value.value, |doc.shown.value.before|)
    ensures WellFormed(doc.shown.value.value)
  {
    S.SizePositive(doc.shown.value.value);
    doc.TokenSeen(0);
  }

  method ReadNumber(doc: Document, index: int, viaDouble: string -> int) returns (n: int)
    requires doc.Valid() && doc.InRange(index) && doc.Seen(index).ValueSight? && doc.Seen(index).value.Num?
    ensures WellFormedNumber(doc.Seen(index).value.number)
    ensures n == VersionOf(doc.Seen(index).value.number, viaDouble)
  {
    hide S.Locate, IntOf, IntText, WellFormedNumber;
    doc.TokenSeen(index);
    doc.RawSeen(index);
    n := doc.ToIntAt(index, 0, viaDouble(doc.Raw(index)));
  }

  method ReadVersion(doc: Document, body: int, viaDouble: string -> int) returns (r: Reading)
    requires doc.Valid() && doc.IsObject(body)
    ensures WellFormed(doc.Seen(body).value) && r == Versioned(doc.Seen(body).value, viaDouble)
  {
    hide S.Locate, FirstNamed, Text, Decode, StringBody, IntOf, IntText, WellFormedNumber;
    doc.TokenSeen(body);
    var version := Member(doc, body, "schemaVersion");
    if doc.Type(version) != TokenType.Number {
      return Unusable;
    }
    var number := ReadNumber(doc, version, viaDouble);
    if number < 1 {
      return Unusable;
    }
    if number > CURRENT_SCHEMA {
      return Future(number);
    }
    doc.RawSeen(body);
    r := Usable(number, doc.Raw(body));
  }

  /** The store, with what strtod would make of odd version numbers. */
  class ConfigStore {
    const storage: Storage
    const viaDouble: string -> int

    constructor (storage: Storage, viaDouble: string -> int)
      ensures this.storage == storage && this.viaDouble == viaDouble
    {
      this.storage, this.viaDouble := storage, viaDouble;
    }

    /** How this store reads a record. */
    ghost function Reader(): string -> Reading {
      (payload: string) => ReadingOf(payload, viaDouble)
    }

    method Load() returns (report: Report, body: Option<string>)
      ensures (report, body) == ConfigRuns.Load(storage.values, Reader())
    {
      hide ReadingOf;
      var found, payload := storage.Read(PRIMARY_KEY);
      if found {
        var r := Deserialize(payload, viaDouble);
        if r.Usable? {
          return Report(if r.version < CURRENT_SCHEMA then Migrated else Loaded, r.version, false), Some(r.body);
        }
        report := if r.Future? then Report(DefaultsFutureSchema, r.version, false) else Report(DefaultsCorrupt, 0, false);
      } else {
        report := Report(DefaultsMissing, 0, false);
      }
      found, payload := storage.Read(BACKUP_KEY);
      if found {
        var r := Deserialize(payload, viaDouble);
        if r.Usable? {
          return Report(RecoveredFromBackup, r.version, true), Some(r.body);
        }
      }
      body := None;
    }

    /** Saves settings; the flags say which of the two writes land. */
    method Save(body: string, backupLands: bool, primaryLands: bool) returns (ok: bool)
      modifies storage
      ensures (storage.values, ok)
           == ConfigRuns.Save(old(storage.values), Envelope(Sum(body), body), storage.limit, backupLands, primaryLands)
    {
      hide Envelope, Sum;
      var sum := ChecksumText(body);
      var payload := Envelope(sum, body);
      if |payload| > storage.limit {
        return false;
      }
      var found, current := storage.Read(PRIMARY_KEY);
      if found && current != payload {
        storage.Write(BACKUP_KEY, current, backupLands);
      }
      storage.Write(PRIMARY_KEY, payload, primaryLands);
      ok := primaryLands;
    }
  }

  /** Settings that fit are saved and loaded again as the same text, whatever was
      stored before and whether or not that could be backed up. */
  method SaveThenLoad(store: ConfigStore, body: Value, backupLands: bool) returns (loaded: Option<string>)
    requires body.Obj? && WellFormed(body) && EnvelopeFits(body) && Versioned(body, store.viaDouble).Usable?
    requires |Text(body)| + 40 <= store.storage.limit
    modifies store.storage
    ensures loaded == Some(Text(body))
  {
    hide WellFormed, Text, Versioned, Envelope, Sum, ReadingOf, EnvelopeFits;
    StoredReadsBack(body, store.viaDouble);
    EnvelopeLength(body);
    VersionedBody(body, store.viaDouble);
    var ok := store.Save(Text(body), backupLands, true);
    var report;
    report, loaded := store.Load();
  }

  lemma EnvelopeLength(body: Value)
    ensures |Envelope(Sum(Text(body)), Text(body))| <= |Text(body)| + 40
  {
    hide Text, Crc;
  }

  lemma VersionedBody(body: Value, viaDouble: string -> int)
    requires body.Obj? && WellFormed(body)
    ensures var r := Versioned(body, viaDouble); r.Usable? ==> r.body == Text(body)
  {
  }
}
