/**
 The stored configuration of firmware/src/config/Config.cpp: a JSON object with
 the settings and a checksum of their text, and what is made of one that was cut
 short or damaged. The settings themselves are any object.
 */
module ConfigRecord {
  import opened Basics
  import opened Bits
  import opened Checksum
  import opened JsonCompleteness
  import opened JsonGrammar
  import opened JsonReader
  import opened JsonSoundness
  import opened JsonText
  import opened Numerals
  import A = JsonAcceptance
  import D = JsonDocument

  const MAX_TOKENS: nat := 1024
  const MAX_DEPTH: nat := 32
  const MAX_INPUT_BYTES: nat := 65536
  const CURRENT_SCHEMA: int := 2

  /** A text as the checksum sees it: characters stand for bytes. */
  function Octets(text: string): (octets: seq<byte>)
    ensures |octets| == |text|
  {
    seq(|text|, i requires 0 <= i < |text| => Octet(text[i]))
  }

  function Octet(c: char): byte { c as int % 256 }

  /** Hexadecimal digits, the most significant first; the bits come the other way round. */
  function HexText(bits: seq<bool>): (text: string)
    requires |bits| % 4 == 0
    ensures |text| == |bits| / 4
    decreases |bits|
  {
    if bits == [] then "" else HexText(bits[4..]) + [Nibble(bits[..4])]
  }

  function Nibble(bits: seq<bool>): char
    requires |bits| == 4
  {
    NibbleFits(bits);
    HexDigit(ValueOf(bits))
  }

  lemma NibbleFits(bits: seq<bool>)
    requires |bits| == 4
    ensures ValueOf(bits) < 16
  {
    ValueBelow(bits);
    assert Pow2(4) == 16;
  }

  function Sum(body: string): string {
    HexText(Crc(Octets(body)))
  }

  /** The record that carries a body. */
  function Envelope(sum: string, body: string): string {
    "{" + ("\"checksum\":\"" + sum + "\"" + "," + ("\"body\":" + body)) + "}"
  }

  // --- reading a record -----------------------------------------------------------------------------

  /** What a stored text is good for. */
  datatype Reading = Unusable | Future(version: int) | Usable(version: int, body: string)

  /** The value of the first member with a name. */
  function FirstNamed(ms: seq<Member>, name: string): (v: Option<Value>)
    requires WellFormedMembers(ms)
    ensures v.Some? ==> WellFormed(v.value)
  {
    if ms == [] then None
    else
      assert WellFormedMember(ms[0]);
      if Decode(ms[0].key) == name then Some(ms[0].value) else FirstNamed(ms[1..], name)
  }

  function VersionOf(n: Number, viaDouble: string -> int): int
    requires WellFormedNumber(n)
  {
    var text := NumberText(n);
    if n.frac == "" && n.exp == "" then
      D.NumberIsInteger(n);
      if IsInt64(IntOf(text)) then IntOf(text) else 0
    else viaDouble(text)
  }

  function Versioned(body: Value, viaDouble: string -> int): Reading
    requires body.Obj? && WellFormed(body)
  {
    match FirstNamed(body.members, "schemaVersion")
    case Some(Num(n)) =>
      var version := VersionOf(n, viaDouble);
      if version < 1 then Unusable
      else if version > CURRENT_SCHEMA then Future(version)
      else Usable(version, Text(body))
    case _ => Unusable
  }

  function Judged(v: Value, viaDouble: string -> int): Reading
    requires WellFormed(v)
  {
    if !v.Obj? then Unusable
    else
      match (FirstNamed(v.members, "checksum"), FirstNamed(v.members, "body"))
      case (Some(Str(raw)), Some(Obj(gap, ms))) =>
        var body := Obj(gap, ms);
        if Decode(raw) != Sum(Text(body)) then Unusable else Versioned(body, viaDouble)
      case _ => Unusable
  }

  function ReadingOf(payload: string, viaDouble: string -> int): Reading {
    var x := Input(payload, MAX_DEPTH, MAX_TOKENS);
    if |payload| > MAX_INPUT_BYTES || A.ReadDocument(x).Fail? then Unusable
    else
      A.DocumentSound(x);
      Judged(A.ReadDocument(x).value.value, viaDouble)
  }

  // --- a whole record -----------------------------------------------------------------------------------

  /** The syntax an envelope has. */
  function EnvelopeOf(sum: string, body: Value): Value {
    Obj("", [SumMember(sum), BodyMember(body)])
  }

  /** What the functions on members make of two of them. */
  lemma {:induction false} Pair(a: Member, b: Member)
    ensures WellFormedMembers([a, b]) <==> WellFormedMember(a) && WellFormedMember(b)
    ensures NarrowMembers([a, b]) <==> Narrow(a.value) && Narrow(b.value)
    ensures MembersDepth([a, b]) == Max(Depth(a.value), Depth(b.value))
    ensures MembersSize([a, b]) == 2 + Size(a.value) + Size(b.value)
    ensures MembersText([a, b]) == MemberText(a) + "," + MemberText(b)
  {
    hide WellFormedMember, Narrow, Depth, Size, MemberText;
    assert [a, b][1..] == [b] && [b][1..] == [];
    assert WellFormedMembers([b]) <==> WellFormedMember(b);
    assert NarrowMembers([b]) <==> Narrow(b.value);
    assert MembersDepth([b]) == Depth(b.value);
    assert MembersSize([b]) == 1 + Size(b.value);
  }

  lemma {:induction false} PairNamed(a: Member, b: Member, name: string)
    requires WellFormedMember(a) && WellFormedMember(b)
    ensures WellFormedMembers([a, b])
    ensures Decode(a.key) == name ==> FirstNamed([a, b], name) == Some(a.value)
    ensures Decode(a.key) != name && Decode(b.key) == name ==> FirstNamed([a, b], name) == Some(b.value)
  {
    hide Decode, WellFormed, StringBody;
    Pair(a, b);
    assert [a, b][1..] == [b];
    assert WellFormedMembers([b]);
  }

  function SumMember(sum: string): Member {
    Member("", "checksum", "", "", Str(sum), "")
  }

  function BodyMember(body: Value): Member {
    Member("", "body", "", "", body, "")
  }

  lemma {:induction false} EnvelopeSpells(sum: string, body: Value)
    ensures Text(EnvelopeOf(sum, body)) == Envelope(sum, Text(body))
  {
    hide MembersText, MemberText;
    Pair(SumMember(sum), BodyMember(body));
    MemberTexts(sum, body);
  }

  lemma {:induction false} MemberTexts(sum: string, body: Value)
    ensures MemberText(SumMember(sum)) == "\"checksum\":\"" + sum + "\""
    ensures MemberText(BodyMember(body)) == "\"body\":" + Text(body)
  {
    assert Text(Str(sum)) == "\"" + sum + "\"";
  }

  predicate Plain(s: string) {
    forall i :: 0 <= i < |s| ==> Unescaped(s[i])
  }

  lemma PlainStands(s: string)
    requires Plain(s)
    ensures StringBody(s) && Decode(s) == s
  {
    assert s + "" == s;
    PlainDecodes(s, "");
  }

  lemma NamesPlain()
    ensures Plain("checksum") && Plain("body")
  {
  }

  lemma {:induction false} EnvelopeWellFormed(sum: string, body: Value)
    requires Plain(sum) && WellFormed(body)
    ensures WellFormed(EnvelopeOf(sum, body)) && StringBody(sum) && Decode(sum) == sum
    ensures WellFormedMembers(EnvelopeOf(sum, body).members)
    ensures FirstNamed(EnvelopeOf(sum, body).members, "checksum") == Some(Str(sum))
    ensures FirstNamed(EnvelopeOf(sum, body).members, "body") == Some(body)
  {
    hide StringBody, Decode, Plain, FirstNamed;
    NamesPlain();
    PlainStands(sum);
    PlainStands("checksum");
    PlainStands("body");
    PairNamed(SumMember(sum), BodyMember(body), "checksum");
    PairNamed(SumMember(sum), BodyMember(body), "body");
  }

  /** Room for a body in its envelope. */
  predicate EnvelopeFits(body: Value) {
    && Narrow(body) && Depth(body) < MAX_DEPTH && Size(body) + 4 <= MAX_TOKENS
    && |Text(body)| + 40 <= MAX_INPUT_BYTES
  }

  lemma {:induction false} EnvelopeWithin(sum: string, body: Value)
    requires |sum| == 8 && EnvelopeFits(body)
    ensures A.WithinLimits(A.Document("", EnvelopeOf(sum, body), ""), MAX_DEPTH, MAX_TOKENS)
    ensures |Envelope(sum, Text(body))| <= MAX_INPUT_BYTES
  {
    hide Text;
    Pair(SumMember(sum), BodyMember(body));
  }

  lemma {:induction false} HexPlain(bits: seq<bool>)
    requires |bits| % 4 == 0
    ensures Plain(HexText(bits))
    decreases |bits|
  {
    if bits != [] {
      HexPlain(bits[4..]);
      NibbleFits(bits[..4]);
      HexRoundTrip(ValueOf(bits[..4]));
    }
  }

  lemma {:induction false} EnvelopeRead(sum: string, body: Value)
    requires |sum| == 8 && Plain(sum) && WellFormed(body) && EnvelopeFits(body)
    ensures var r := A.ReadDocument(Input(Envelope(sum, Text(body)), MAX_DEPTH, MAX_TOKENS));
      r.Ok? && r.value == A.Document("", EnvelopeOf(sum, body), "")
    ensures |Envelope(sum, Text(body))| <= MAX_INPUT_BYTES
  {
    hide Text, WellFormed, Envelope, FirstNamed, EnvelopeFits, Decode, Plain, A.WithinLimits, EnvelopeOf;
    var d := A.Document("", EnvelopeOf(sum, body), "");
    EnvelopeSpells(sum, body);
    EnvelopeWellFormed(sum, body);
    EnvelopeWithin(sum, body);
    assert A.DocumentText(d) == Envelope(sum, Text(body));
    A.DocumentComplete(Input(Envelope(sum, Text(body)), MAX_DEPTH, MAX_TOKENS), d);
  }

  /** An envelope's contents are what is judged. */
  lemma {:induction false} EnvelopeReads(sum: string, body: Value, viaDouble: string -> int)
    requires |sum| == 8 && Plain(sum) && WellFormed(body) && EnvelopeFits(body)
    ensures ReadingOf(Envelope(sum, Text(body)), viaDouble)
         == if body.Obj? && sum == Sum(Text(body)) then Versioned(body, viaDouble) else Unusable
  {
    hide Text, WellFormed, Sum, Versioned, Envelope, FirstNamed, EnvelopeFits, Decode, Plain, A.ReadDocument;
    EnvelopeRead(sum, body);
    EnvelopeWellFormed(sum, body);
  }

  /** Settings that were stored are read back whole, at their own version. */
  lemma {:induction false} StoredReadsBack(body: Value, viaDouble: string -> int)
    requires body.Obj? && WellFormed(body) && EnvelopeFits(body)
    ensures ReadingOf(Envelope(Sum(Text(body)), Text(body)), viaDouble) == Versioned(body, viaDouble)
  {
    hide Text, WellFormed, Versioned, Crc, EnvelopeFits, Octets, Plain, Decode, Envelope;
    HexPlain(Crc(Octets(Text(body))));
    EnvelopeReads(Sum(Text(body)), body, viaDouble);
  }

  // --- a record cut short ---------------------------------------------------------------------------------

  /** An object that stands in a text ends where it ends, whatever follows. */
  lemma {:induction false} ObjectStands(x: Input, d: A.Document)
    requires d.value.Obj? && A.IsJson(d) && A.WithinLimits(d, x.maxDepth, x.capacity, x.children)
    requires At(x.text, 0, d.before + Text(d.value))
    ensures SkipSpaces(x.text, 0) == |d.before| < |x.text|
    ensures ReadObject(x, |d.before|, 0, 0).Ok? && ReadObject(x, |d.before|, 0, 0).pos == |d.before| + |Text(d.value)|
  {
    hide At, ReadObject, Text, WellFormed, Narrow, Depth, SkipSpaces;
    AtConcat(x.text, 0, d.before, Text(d.value));
    ObjectComplete(x, |d.before|, 0, 0, d.value.gap, d.value.members);
    SpacesComplete(x.text, 0, d.before);
  }

  /** What a document is read from begins with its object. */
  lemma {:induction false} ObjectBegins(payload: string, n: nat)
    requires n <= |payload| && A.ReadDocument(Input(payload[..n], MAX_DEPTH, MAX_TOKENS)).Ok?
    ensures var d := A.ReadDocument(Input(payload[..n], MAX_DEPTH, MAX_TOKENS)).value;
      && A.IsJson(d) && A.WithinLimits(d, MAX_DEPTH, MAX_TOKENS)
      && |d.before| + |Text(d.value)| + |d.after| == n && At(payload, 0, d.before + Text(d.value))
  {
    hide At, Text, A.ReadDocument;
    var x := Input(payload[..n], MAX_DEPTH, MAX_TOKENS);
    A.DocumentSound(x);
    var d := A.ReadDocument(x).value;
    AtSlice(payload, 0, n);
    assert payload[0..n] == payload[..n] == d.before + Text(d.value) + d.after;
    AtConcat(payload, 0, d.before + Text(d.value), d.after);
  }

  /** A record that lost its end, however little of it, is not used. */
  lemma {:induction false} TruncatedUnusable(payload: string, n: nat, viaDouble: string -> int)
    requires n < |payload|
    requires var r := A.ReadDocument(Input(payload, MAX_DEPTH, MAX_TOKENS)); r.Ok? && r.value.value.Obj? && r.value.after == ""
    ensures ReadingOf(payload[..n], viaDouble) == Unusable
  {
    hide At, Text, A.ReadDocument, ReadObject, A.IsJson, A.WithinLimits, FirstNamed, Sum, Versioned;
    var x := Input(payload, MAX_DEPTH, MAX_TOKENS);
    assert payload[..|payload|] == payload;
    ObjectBegins(payload, |payload|);
    ObjectStands(x, A.ReadDocument(x).value);
    var r := A.ReadDocument(Input(payload[..n], MAX_DEPTH, MAX_TOKENS));
    if r.Ok? && r.value.value.Obj? {
      ObjectBegins(payload, n);
      ObjectStands(x, r.value);
      assert false;
    }
  }

  /** In particular none of what a save writes. */
  lemma {:induction false} SavedTruncatedUnusable(body: Value, n: nat, viaDouble: string -> int)
    requires body.Obj? && WellFormed(body) && EnvelopeFits(body)
    requires n < |Envelope(Sum(Text(body)), Text(body))|
    ensures ReadingOf(Envelope(Sum(Text(body)), Text(body))[..n], viaDouble) == Unusable
  {
    hide Text, WellFormed, Crc, EnvelopeFits, Octets, Plain, Envelope, A.ReadDocument;
    HexPlain(Crc(Octets(Text(body))));
    EnvelopeRead(Sum(Text(body)), body);
    TruncatedUnusable(Envelope(Sum(Text(body)), Text(body)), n, viaDouble);
  }

  // --- a record damaged ---------------------------------------------------------------------------------------

  predicate IsBytes(text: string) {
    forall i :: 0 <= i < |text| ==> text[i] as int < 256
  }

  lemma OctetsConcat(a: string, b: string, c: string)
    ensures Octets(a + b + c) == Octets(a) + Octets(b) + Octets(c)
  {
  }

  lemma OctetsDiffer(a: string, b: string)
    requires IsBytes(a) && IsBytes(b) && |a| == |b| && a != b
    ensures Octets(a) != Octets(b)
  {
    var i :| 0 <= i < |a| && a[i] != b[i];
    assert Octets(a)[i] != Octets(b)[i];
  }

  lemma {:induction false} HexTextsDiffer(a: seq<bool>, b: seq<bool>)
    requires |a| == |b| && |a| % 4 == 0 && a != b
    ensures HexText(a) != HexText(b)
    decreases |a|
  {
    hide Nibble;
    SnocsDiffer(HexText(a[4..]), Nibble(a[..4]), HexText(b[4..]), Nibble(b[..4]));
    if a[..4] == b[..4] {
      assert a == a[..4] + a[4..] && b == b[..4] + b[4..];
      HexTextsDiffer(a[4..], b[4..]);
    } else {
      NibblesDiffer(a[..4], b[..4]);
    }
  }

  lemma SnocsDiffer(a: string, c: char, b: string, d: char)
    requires |a| == |b|
    ensures a + [c] == b + [d] ==> a == b && c == d
  {
    if a + [c] == b + [d] {
      assert (a + [c])[..|a|] == a && (b + [d])[..|b|] == b;
      assert (a + [c])[|a|] == c && (b + [d])[|b|] == d;
    }
  }

  lemma {:induction false} NibblesDiffer(a: seq<bool>, b: seq<bool>)
    requires |a| == |b| == 4 && a != b
    ensures Nibble(a) != Nibble(b)
  {
    hide HexDigit, ValueOf, BitsOf, HexValue;
    BitsOfValueOf(a, 0);
    BitsOfValueOf(b, 0);
    assert a + Zeros(0) == a && b + Zeros(0) == b;
    NibbleFits(a);
    NibbleFits(b);
    HexRoundTrip(ValueOf(a));
    HexRoundTrip(ValueOf(b));
  }

  /** A change of up to four bytes in a row of the settings is noticed, even when
      they are still well formed. */
  lemma {:induction false} DamageUnusable(pre: string, a: string, b: string, post: string, body: Value, viaDouble: string -> int)
    requires IsBytes(a) && IsBytes(b) && |a| == |b| <= 4 && a != b
    requires WellFormed(body) && EnvelopeFits(body) && Text(body) == pre + b + post
    ensures ReadingOf(Envelope(Sum(pre + a + post), Text(body)), viaDouble) == Unusable
  {
    hide Text, WellFormed, Crc, EnvelopeFits, Octets, Plain, Envelope, HexText, Versioned, Decode, FirstNamed;
    var was := pre + a + post;
    OctetsConcat(pre, a, post);
    OctetsConcat(pre, b, post);
    OctetsDiffer(a, b);
    BurstDetected(Octets(pre), Octets(a), Octets(b), Octets(post));
    HexTextsDiffer(Crc(Octets(was)), Crc(Octets(Text(body))));
    HexPlain(Crc(Octets(was)));
    EnvelopeReads(Sum(was), body, viaDouble);
  }
}
