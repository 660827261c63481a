/**
 Responses as a server writes them: that they are among the ones HttpCuts speaks
 of, whatever other fields they carry.
 */
module HttpRendering {
  import opened Basics
  import opened HttpResponse
  import opened HttpCuts
  import opened Numerals

  /** A field that says nothing about the body. */
  predicate Harmless(field: string) {
    && '\n' !in field
    && Find(field, ':').Some?
    && var name := Trimmed(field[..Find(field, ':').value]);
       !SameIgnoringCase(name, "content-length") && !SameIgnoringCase(name, "transfer-encoding")
  }

  predicate AllHarmless(fields: seq<string>) {
    fields == [] || (Harmless(fields[0]) && AllHarmless(fields[1..]))
  }

  /** The lines of a head that ends with last, each with its carriage return. */
  function Ended(fields: seq<string>, last: seq<string>): seq<string> {
    if fields == [] then last else [fields[0] + "\r"] + Ended(fields[1..], last)
  }

  function StatusLine(status: nat, reason: string): string {
    "HTTP/1.1 " + DecimalNat(status) + " " + reason
  }

  function LengthField(n: nat): string {
    "Content-Length: " + DecimalNat(n)
  }

  const CHUNKED_FIELD := "Transfer-Encoding: chunked"

  /** One declaring field among harmless ones. */
  function HeadLines(status: nat, reason: string, before: seq<string>, field: string, after: seq<string>): seq<string> {
    [StatusLine(status, reason) + "\r"] + Ended(before, [field + "\r"] + Ended(after, ["\r"]))
  }

  lemma StrippedLine(line: string)
    ensures Stripped(line + "\r") == line
  {
    assert (line + "\r")[..|line|] == line;
  }

  lemma HarmlessSaysNothing(d: Declared, field: string)
    requires Harmless(field)
    ensures !IsBlank(field) && FieldOf(d, field) == (NoFailure, d)
  {
    hide Trimmed;
    assert ':' in field;
  }

  lemma {:induction false} HarmlessFit(d: Declared, fields: seq<string>, last: seq<string>, framing: Framing)
    requires AllHarmless(fields) && FieldsFit(d, last, framing)
    ensures FieldsFit(d, Ended(fields, last), framing)
  {
    hide FieldOf, Harmless, Stripped;
    if fields != [] {
      HarmlessFit(d, fields[1..], last, framing);
      HarmlessSaysNothing(d, fields[0]);
      StrippedLine(fields[0]);
      NoNewline(fields[0]);
      assert Ended(fields, last)[1..] == Ended(fields[1..], last);
    }
  }

  lemma NoNewline(field: string)
    requires Harmless(field)
    ensures '\n' !in field + "\r"
  {
  }

  lemma {:induction false} LengthReads(value: string, i: nat)
    requires AllDigits(value) && i <= |value| && NatOf(value) <= MAX_CONTENT_LENGTH
    ensures LengthFrom(value, i, NatOf(value[..i])) == (NoFailure, NatOf(value))
    decreases |value| - i
  {
    if i < |value| {
      assert value[..i + 1][..i] == value[..i];
      NatOfGrows(value, i + 1);
      LengthReads(value, i + 1);
    } else {
      assert value[..i] == value;
    }
  }

  lemma TrimmedValue(value: string)
    requires value != "" && !Leads(value[0]) && !Trails(value[|value| - 1])
    ensures Trimmed(" " + value) == value && Trimmed(value) == value
  {
    assert (" " + value)[1..] == value;
    assert TrimFront(value) == value && TrimFront(" " + value) == value;
  }

  predicate Bare(text: string) {
    text != "" && !Leads(text[0]) && !Trails(text[|text| - 1])
  }

  /** A field's name and value are found again. */
  lemma FieldParts(name: string, value: string)
    requires Bare(name) && Bare(value) && ':' !in name
    ensures var field := name + ": " + value;
      && Find(field, ':') == Some(|name|)
      && Trimmed(field[..|name|]) == name && Trimmed(field[|name| + 1..]) == value
  {
    hide Find, Trimmed;
    var field := name + ": " + value;
    assert field == name + [':'] + (" " + value);
    FindAfter(name, ':', " " + value);
    assert field[..|name|] == name && field[|name| + 1..] == " " + value;
    TrimmedValue(name);
    TrimmedValue(value);
  }

  lemma LengthFieldDeclares(d: Declared, n: nat)
    requires n <= MAX_CONTENT_LENGTH
    ensures FieldOf(d, LengthField(n)) == (NoFailure, d.(contentLength := n))
    ensures '\n' !in LengthField(n) + "\r" && !IsBlank(LengthField(n))
  {
    hide Find, LengthFrom, Trimmed, DecimalNat, NatOf, SameIgnoringCase;
    DecimalNatReads(n);
    var name, value := "Content-Length", DecimalNat(n);
    assert LengthField(n) == name + ": " + value;
    assert IsDigit(value[0]) && IsDigit(value[|value| - 1]);
    FieldParts(name, value);
    LengthName();
    LengthReads(value, 0);
    NatOfNothing(value[..0]);
  }

  lemma LengthName()
    ensures SameIgnoringCase("Content-Length", "content-length")
  {
  }

  lemma NatOfNothing(s: string)
    requires s == ""
    ensures NatOf(s) == 0
  {
  }

  lemma ChunkedFieldDeclares(d: Declared)
    ensures FieldOf(d, CHUNKED_FIELD) == (NoFailure, Declared(-1, true))
  {
    hide Find, LengthOf, Trimmed, SameIgnoringCase;
    var name, value := "Transfer-Encoding", "chunked";
    assert CHUNKED_FIELD == name + ": " + value;
    FieldParts(name, value);
    EncodingName();
  }

  lemma EncodingName()
    ensures !SameIgnoringCase("Transfer-Encoding", "content-length")
    ensures SameIgnoringCase("Transfer-Encoding", "transfer-encoding") && SameIgnoringCase("chunked", "chunked")
  {
  }

  lemma StatusLineReads(status: nat, reason: string)
    requires 100 <= status <= 999
    ensures StatusOf(StatusLine(status, reason)) == (NoFailure, status)
  {
    hide Find, NatOf, DecimalNat;
    var code := DecimalNat(status);
    ThreeDigits(status);
    DecimalNatReads(status);
    var line := StatusLine(status, reason);
    assert line == "HTTP/1.1" + [' '] + (code + " " + reason);
    FindAfter("HTTP/1.1", ' ', code + " " + reason);
    assert line[..5] == "HTTP/" && SameIgnoringCase("HTTP/", "http/");
    assert line[9..12] == code;
  }

  lemma ThreeDigits(n: nat)
    requires 100 <= n <= 999
    ensures |DecimalNat(n)| == 3
  {
    assert |DecimalNat(n / 10)| == 2 by {
      assert |DecimalNat(n / 10 / 10)| == 1;
    }
  }

  /** A head with one declaring field among harmless ones announces what the
      field declares. */
  lemma HeadFits(status: nat, reason: string, before: seq<string>, field: string, after: seq<string>, d: Declared, framing: Framing)
    requires 100 <= status <= 999 && (NeverHasBody(status) <==> framing.Bodiless?) && '\n' !in reason
    requires AllHarmless(before) && AllHarmless(after)
    requires '\n' !in field && !IsBlank(field) && FieldOf(Declared(-1, false), field) == (NoFailure, d) && Fits(d, framing)
    ensures WellFormed(Message(HeadLines(status, reason, before, field, after), framing), status)
  {
    hide FieldOf, StatusOf, Stripped, Fits, Harmless, DecimalNat;
    var lines := HeadLines(status, reason, before, field, after);
    var tail := Ended(after, ["\r"]);
    assert FieldsFit(d, ["\r"], framing) by {
      StrippedLine("");
      assert "" + "\r" == "\r";
    }
    HarmlessFit(d, after, ["\r"], framing);
    assert FieldsFit(Declared(-1, false), [field + "\r"] + tail, framing) by {
      StrippedLine(field);
      assert ([field + "\r"] + tail)[1..] == tail;
      EndedNotEmpty(after, ["\r"]);
    }
    HarmlessFit(Declared(-1, false), before, [field + "\r"] + tail, framing);
    assert lines[1..] == Ended(before, [field + "\r"] + tail);
    StatusLineFits(status, reason);
  }

  lemma EndedNotEmpty(fields: seq<string>, last: seq<string>)
    requires last != []
    ensures Ended(fields, last) != []
  {
  }

  // --- chunk sizes ----------------------------------------------------------------------------------

  function HexDigit(n: nat): char
    requires n < 16
  {
    "0123456789ABCDEF"[n]
  }

  function Hex(n: nat): string {
    if n < 16 then [HexDigit(n)] else Hex(n / 16) + [HexDigit(n % 16)]
  }

  lemma HexDigitReads(n: nat)
    requires n < 16
    ensures HexValue(HexDigit(n)) == Some(n)
    ensures HexDigit(n) !in "; \t\r\n"
  {
  }

  predicate PlainDigits(s: string) {
    forall i :: 0 <= i < |s| ==> s[i] !in "; \t\r\n"
  }

  lemma {:induction false} HexReads(n: nat)
    ensures HexOf(Hex(n)) == Some(n) && Hex(n) != "" && PlainDigits(Hex(n))
  {
    hide HexDigit, HexValue;
    if n < 16 {
      HexDigitReads(n);
      assert Hex(n)[..0] == "";
    } else {
      HexReads(n / 16);
      HexDigitReads(n % 16);
      assert Hex(n)[..|Hex(n)| - 1] == Hex(n / 16);
    }
  }

  lemma {:induction false} HexShort(n: nat, k: nat, limit: nat)
    requires k >= 1 && n < limit && limit == Power16(k)
    ensures |Hex(n)| <= k
    decreases k
  {
    if n >= 16 {
      HexShort(n / 16, k - 1, limit / 16);
    }
  }

  function Power16(k: nat): nat {
    if k == 0 then 1 else 16 * Power16(k - 1)
  }

  lemma {:induction false} NoCrLf(s: string)
    requires PlainDigits(s)
    ensures FindCrLf(s + "\r\n") == Some(|s|)
  {
    if s != "" {
      assert s[0] !in "; \t\r\n";
      NoCrLf(s[1..]);
      assert (s + "\r\n")[1..] == s[1..] + "\r\n";
    }
  }

  /** A size written in hexadecimal is read back, up to the eight digits a size
      may have. */
  lemma HexSizeLine(n: nat)
    requires n < 0x1_0000_0000
    ensures IsSizeLine(Hex(n), n) && |Hex(n)| <= MAX_SIZE_LINE
  {
    hide Hex, HexOf, FindCrLf, Trimmed, Find;
    HexReads(n);
    assert Power16(8) == 0x1_0000_0000;
    HexShort(n, 8, 0x1_0000_0000);
    NoCrLf(Hex(n));
    assert Hex(n)[0] !in "; \t\r\n" && Hex(n)[|Hex(n)| - 1] !in "; \t\r\n";
    TrimmedValue(Hex(n));
    assert ';' !in Hex(n);
  }

  /** Data in chunks, each with its size. */
  function Chunked(data: seq<string>): seq<Piece> {
    if data == [] then [] else [Piece(Hex(|data[0]|), data[0])] + Chunked(data[1..])
  }

  predicate ChunkData(data: seq<string>) {
    data == [] || (0 < |data[0]| < 0x1_0000_0000 && ChunkData(data[1..]))
  }

  lemma {:induction false} ChunkedFit(data: seq<string>, done: nat)
    requires ChunkData(data)
    ensures PiecesFit(Chunked(data)) && ShortFrom(done, Chunked(data), "0") && Joined(Chunked(data)) == Concat(data)
    decreases |data|
  {
    hide Hex, IsSizeLine;
    if data != [] {
      HexSizeLine(|data[0]|);
      ChunkedFit(data[1..], done + |data[0]|);
      assert Chunked(data)[1..] == Chunked(data[1..]);
    }
  }

  // --- responses --------------------------------------------------------------------------------------

  /** A response with a declared length comes through every cut. */
  lemma SizedResponse(status: nat, reason: string, before: seq<string>, after: seq<string>, payload: string, pieces: seq<string>)
    requires 100 <= status <= 999 && !NeverHasBody(status) && '\n' !in reason
    requires AllHarmless(before) && AllHarmless(after) && |payload| <= MAX_CONTENT_LENGTH
    requires var lines := HeadLines(status, reason, before, LengthField(|payload|), after);
      |LinesText(lines)| <= MAX_HEADER_BYTES / 2 && Concat(pieces) == LinesText(lines) + payload
    ensures Received(FeedAll(FRESH, pieces), status, payload)
  {
    hide FieldOf, WellFormed, LinesText, Received, FeedAll, HeadLines, LengthField, IsBlank;
    var n := |payload|;
    var m := Message(HeadLines(status, reason, before, LengthField(n), after), Sized(payload));
    LengthFieldDeclares(Declared(-1, false), n);
    HeadFits(status, reason, before, LengthField(n), after, Declared(n, false), Sized(payload));
    EveryCutCompletes(m, status, pieces);
  }

  /** A response in chunks comes through every cut. */
  lemma ChunkedResponse(status: nat, reason: string, before: seq<string>, after: seq<string>, data: seq<string>,
                        trailer: string, pieces: seq<string>)
    requires 100 <= status <= 999 && !NeverHasBody(status) && '\n' !in reason
    requires AllHarmless(before) && AllHarmless(after) && ChunkData(data)
    requires var lines := HeadLines(status, reason, before, CHUNKED_FIELD, after);
      && |LinesText(lines)| <= MAX_HEADER_BYTES / 2
      && Concat(pieces) == LinesText(lines) + ChunksText(Chunked(data), "0", trailer)
    ensures Received(FeedAll(FRESH, pieces), status, Concat(data))
  {
    hide FieldOf, WellFormed, LinesText, Received, FeedAll, HeadLines, ChunksText, Hex, IsSizeLine, PiecesFit, ShortFrom, Joined,
      AllHarmless, Answered, EndsChunks;
    var framing := Chunks(Chunked(data), "0", trailer);
    var m := Message(HeadLines(status, reason, before, CHUNKED_FIELD, after), framing);
    ChunkedFieldDeclares(Declared(-1, false));
    ChunkedFit(data, 0);
    ZeroSizeLine();
    HeadFits(status, reason, before, CHUNKED_FIELD, after, Declared(-1, true), framing);
    EveryCutCompletes(m, status, pieces);
    ChunksReceived(FeedAll(FRESH, pieces), status, framing);
  }

  /** A field the parser takes, whatever it declares. */
  predicate Readable(field: string) {
    '\n' !in field && !IsBlank(field) && FieldOf(Declared(-1, false), field).0 == NoFailure
  }

  predicate AllReadable(fields: seq<string>) {
    fields == [] || (Readable(fields[0]) && AllReadable(fields[1..]))
  }

  /** A head with any fields at all. */
  function Head(status: nat, reason: string, fields: seq<string>): seq<string> {
    [StatusLine(status, reason) + "\r"] + Ended(fields, ["\r"])
  }

  /** A head that ends with this line. */
  function HeadTo(status: nat, reason: string, fields: seq<string>, last: string): seq<string> {
    [StatusLine(status, reason) + "\r"] + Ended(fields, [last + "\r"])
  }

  lemma {:induction false} ReadableTo(d: Declared, fields: seq<string>, last: string, why: Failure, after: string)
    requires AllReadable(fields) && '\n' !in last && !IsBlank(last) && why != NoFailure
    requires FieldOf(Declared(-1, false), last).0 == why
    ensures FieldsFit(d, Ended(fields, [last + "\r"]), Refused(why, after))
    decreases |fields|
  {
    hide FieldOf, Stripped;
    if fields == [] {
      StrippedLine(last);
      WhyWhatever(d, last);
    } else {
      WhyWhatever(d, fields[0]);
      ReadableTo(FieldOf(d, fields[0]).1, fields[1..], last, why, after);
      StrippedLine(fields[0]);
      EndedNotEmpty(fields[1..], [last + "\r"]);
      assert Ended(fields, [last + "\r"])[1..] == Ended(fields[1..], [last + "\r"]);
    }
  }

  /** Whether a field is refused, and why, does not depend on the fields before it. */
  lemma WhyWhatever(d: Declared, field: string)
    ensures FieldOf(d, field).0 == FieldOf(Declared(-1, false), field).0
  {
    hide Find, Trimmed, LengthOf, SameIgnoringCase;
  }

  lemma {:induction false} ReadableFit(d: Declared, fields: seq<string>, after: string)
    requires AllReadable(fields)
    ensures FieldsFit(d, Ended(fields, ["\r"]), Bodiless(after))
    decreases |fields|
  {
    hide FieldOf, Stripped;
    if fields == [] {
      StrippedLine("");
      assert "" + "\r" == "\r";
    } else {
      WhyWhatever(d, fields[0]);
      ReadableFit(FieldOf(d, fields[0]).1, fields[1..], after);
      StrippedLine(fields[0]);
      EndedNotEmpty(fields[1..], ["\r"]);
      assert Ended(fields, ["\r"])[1..] == Ended(fields[1..], ["\r"]);
    }
  }

  lemma StatusLineFits(status: nat, reason: string)
    requires 100 <= status <= 999 && '\n' !in reason
    ensures var line := StatusLine(status, reason) + "\r"; '\n' !in line && StatusOf(Stripped(line)) == (NoFailure, status)
  {
    hide Stripped, StatusOf, DecimalNat;
    StrippedLine(StatusLine(status, reason));
    StatusLineReads(status, reason);
    DecimalNatReads(status);
    assert forall i :: 0 <= i < |DecimalNat(status)| ==> IsDigit(DecimalNat(status)[i]);
  }

  /** A response that never has a body is complete at the end of its head, however
      it is cut, whatever length or encoding its fields declare and whatever bytes
      follow, exactly when the head takes at most half the header limit. */
  lemma BodilessResponseIff(status: nat, reason: string, fields: seq<string>, after: string)
    requires (status == 204 || status == 304) && '\n' !in reason && AllReadable(fields)
    ensures var head := LinesText(Head(status, reason, fields));
      (forall pieces :: Concat(pieces) == head + after ==> Received(FeedAll(FRESH, pieces), status, ""))
      <==> |head| <= MAX_HEADER_BYTES / 2
  {
    hide StatusOf, FieldsFit, LinesText, FeedAll, Concat, Ended, Stripped, StatusLine, AllReadable, Received;
    var m := Message(Head(status, reason, fields), Bodiless(after));
    ReadableFit(Declared(-1, false), fields, after);
    EndedNotEmpty(fields, ["\r"]);
    StatusLineFits(status, reason);
    assert m.lines[1..] == Ended(fields, ["\r"]);
    EveryCutCompletesIff(m, status);
  }

  /** A response that declares neither length nor chunks comes through every cut
      too: complete once more has come than is kept, and otherwise still reading,
      with all of the payload kept. */
  lemma OpenResponse(status: nat, reason: string, fields: seq<string>, payload: string, pieces: seq<string>)
    requires 100 <= status <= 999 && !NeverHasBody(status) && '\n' !in reason && AllHarmless(fields)
    requires var lines := Head(status, reason, fields);
      |LinesText(lines)| <= MAX_HEADER_BYTES / 2 && Concat(pieces) == LinesText(lines) + payload
    ensures Answered(FeedAll(FRESH, pieces), status, Open(payload))
  {
    hide StatusOf, LinesText, FeedAll, Concat, Ended, Stripped, StatusLine, Received, Harmless;
    var m := Message(Head(status, reason, fields), Open(payload));
    assert FieldsFit(Declared(-1, false), ["\r"], Open(payload)) by {
      StrippedLine("");
      assert "" + "\r" == "\r";
    }
    HarmlessFit(Declared(-1, false), fields, ["\r"], Open(payload));
    StatusLineFits(status, reason);
    assert m.lines[1..] == Ended(fields, ["\r"]);
    EveryCutCompletes(m, status, pieces);
  }

  /** A response whose head comes to a field that is refused ends with the reason for
      it, however it is cut and whatever follows, exactly when the head so far takes at
      most half the header limit. */
  lemma RefusedFieldIff(status: nat, reason: string, fields: seq<string>, last: string, why: Failure, after: string)
    requires 100 <= status <= 999 && '\n' !in reason && AllReadable(fields)
    requires '\n' !in last && !IsBlank(last) && FieldOf(Declared(-1, false), last).0 == why != NoFailure
    ensures var head := LinesText(HeadTo(status, reason, fields, last));
      (forall pieces :: Concat(pieces) == head + after ==> Answered(FeedAll(FRESH, pieces), status, Refused(why, after)))
      <==> |head| <= MAX_HEADER_BYTES / 2
  {
    hide StatusOf, FieldsFit, LinesText, FeedAll, Concat, Ended, Stripped, StatusLine, AllReadable, Received, FieldOf, Answered;
    var m := Message(HeadTo(status, reason, fields, last), Refused(why, after));
    ReadableTo(Declared(-1, false), fields, last, why, after);
    EndedNotEmpty(fields, [last + "\r"]);
    StatusLineFits(status, reason);
    assert m.lines[1..] == Ended(fields, [last + "\r"]);
    EveryCutCompletesIff(m, status);
  }

  /** And so does one whose status line is. */
  lemma RefusedStatusLineIff(line: string, why: Failure, after: string)
    requires '\n' !in line && StatusOf(line).0 == why != NoFailure
    ensures (forall pieces :: Concat(pieces) == line + "\r\n" + after ==> Answered(FeedAll(FRESH, pieces), 0, Refused(why, after)))
      <==> |line| + 2 <= MAX_HEADER_BYTES / 2
  {
    hide StatusOf, FieldsFit, FeedAll, Concat, Stripped, Received, FieldOf, Answered;
    var m := Message([line + "\r"], Refused(why, after));
    StrippedLine(line);
    assert m.lines[1..] == [];
    assert LinesText(m.lines) == line + "\r\n" + LinesText([]);
    EveryCutCompletesIff(m, 0);
  }

  /** Digits whose number is more than any length that is accepted. */
  predicate Absurd(digits: string) {
    AllDigits(digits) && NatOf(digits) > MAX_CONTENT_LENGTH
  }

  /** A length is read exactly when it is a number within bounds; otherwise it is absurd
      exactly when it begins with a number that is not, and malformed when not. */
  lemma LengthJudged(value: string)
    requires value != ""
    ensures LengthOf(value).0 == NoFailure <==> AllDigits(value) && NatOf(value) <= MAX_CONTENT_LENGTH
    ensures LengthOf(value).0 == NoFailure ==> LengthOf(value).1 == NatOf(value)
    ensures LengthOf(value).0 == AbsurdContentLength <==> exists k :: 0 <= k <= |value| && Absurd(value[..k])
    ensures LengthOf(value).0 in {NoFailure, AbsurdContentLength, MalformedContentLength}
  {
    hide LengthFrom, NatOf;
    NatOfNothing(value[..0]);
    LengthJudgedFrom(value, 0);
  }

  lemma {:induction false} LengthJudgedFrom(value: string, i: nat)
    requires i <= |value| && AllDigits(value[..i]) && NatOf(value[..i]) <= MAX_CONTENT_LENGTH
    requires forall k :: 0 <= k <= i ==> !Absurd(value[..k])
    ensures var (why, n) := LengthFrom(value, i, NatOf(value[..i]));
      && (why == NoFailure <==> AllDigits(value) && NatOf(value) <= MAX_CONTENT_LENGTH) && (why == NoFailure ==> n == NatOf(value))
      && (why == AbsurdContentLength <==> exists k :: 0 <= k <= |value| && Absurd(value[..k]))
      && why in {NoFailure, AbsurdContentLength, MalformedContentLength}
    decreases |value| - i
  {
    hide NatOf;
    if i == |value| {
      assert value[..i] == value;
    } else if IsDigit(value[i]) {
      NatOfNext(value, i);
      if Absurd(value[..i + 1]) {
        if AllDigits(value) {
          NatOfGrows(value, i + 1);
        }
      } else {
        LengthJudgedFrom(value, i + 1);
      }
    } else {
      forall k | i < k <= |value| ensures !Absurd(value[..k]) {
        assert value[..k][i] == value[i];
      }
    }
  }

  lemma NatOfNext(value: string, i: nat)
    requires i < |value| && AllDigits(value[..i]) && IsDigit(value[i])
    ensures AllDigits(value[..i + 1]) && NatOf(value[..i + 1]) == NatOf(value[..i]) * 10 + DigitValue(value[i])
  {
    assert value[..i + 1][..i] == value[..i];
  }

  lemma ZeroSizeLine()
    ensures IsSizeLine("0", 0) && EndsChunks("0")
  {
    hide FindCrLf, IsSizeLine;
    HexSizeLine(0);
    assert Hex(0) == "0";
  }

  lemma ChunksReceived(s: State, status: nat, framing: Framing)
    requires framing.Chunks? && IsSizeLine(framing.last, 0) && Answered(s, status, framing)
    ensures Received(s, status, Joined(framing.pieces))
  {
    hide Received, Joined, FindCrLf, ChunkSize;
  }
}
