/**
 The incremental response parser of firmware/src/net/HttpFetch.cpp as functions
 on its state. HttpParser runs the same steps on an object.
 */
module HttpResponse {
  import opened Basics
  import opened Numerals

  /** Longest body kept. */
  const MAX_BODY_BYTES: nat := 24576

  /** Longest header block accepted. */
  const MAX_HEADER_BYTES: nat := 4096

  const MAX_CONTENT_LENGTH: nat := 0x100_0000_0000

  datatype Stage = Status | Headers | Body | Chunk | Complete | Broken

  datatype Failure =
    | NoFailure
    | NotHttp
    | MalformedStatusLine
    | MalformedStatusCode
    | MalformedHeader
    | EmptyContentLength
    | MalformedContentLength
    | AbsurdContentLength
    | MalformedChunkSize
    | HeadersTooLong

  datatype State = State(
    stage: Stage,
    pending: string,
    failure: Failure,
    status: nat,
    body: string,
    complete: bool,
    chunked: bool,
    truncated: bool,
    headerBytes: nat,
    contentLength: int,
    bodyTaken: nat)

  const FRESH := State(Status, "", NoFailure, 0, "", false, false, false, 0, -1, 0)

  // --- text ---------------------------------------------------------------------------------

  function Lower(c: char): char {
    if 'A' <= c <= 'Z' then (c as int - 'A' as int + 'a' as int) as char else c
  }

  predicate SameIgnoringCase(a: string, b: string) {
    |a| == |b| && forall i :: 0 <= i < |a| ==> Lower(a[i]) == Lower(b[i])
  }

  predicate Leads(c: char) { c == ' ' || c == '\t' }
  predicate Trails(c: char) { c == ' ' || c == '\t' || c == '\r' }

  function TrimFront(s: string): string {
    if s != "" && Leads(s[0]) then TrimFront(s[1..]) else s
  }

  function TrimBack(s: string): string {
    if s != "" && Trails(s[|s| - 1]) then TrimBack(s[..|s| - 1]) else s
  }

  function Trimmed(s: string): string {
    TrimBack(TrimFront(s))
  }

  /** Where c first stands in s. */
  function Find(s: string, c: char): (r: Option<nat>)
    ensures r.Some? ==> r.value < |s| && s[r.value] == c && c !in s[..r.value]
    ensures r.None? ==> c !in s
  {
    if s == "" then None
    else if s[0] == c then Some(0)
    else
      match Find(s[1..], c)
      case None => None
      case Some(i) =>
        assert s[..i + 1] == [s[0]] + s[1..][..i];
        Some(i + 1)
  }

  /** Where a carriage return and line feed first stand in s. */
  function FindCrLf(s: string): (r: Option<nat>)
    ensures r.Some? ==> r.value + 2 <= |s| && s[r.value] == '\r' && s[r.value + 1] == '\n'
  {
    if |s| < 2 then None
    else if s[0] == '\r' && s[1] == '\n' then Some(0)
    else
      match FindCrLf(s[1..])
      case None => None
      case Some(i) => Some(i + 1)
  }

  /** A line without the carriage return before its line feed. */
  function Stripped(line: string): string {
    if line != "" && line[|line| - 1] == '\r' then line[..|line| - 1] else line
  }

  function HexValue(c: char): (n: Option<nat>)
    ensures n.Some? ==> n.value < 16
  {
    if IsDigit(c) then Some(DigitValue(c))
    else if 'a' <= Lower(c) <= 'f' then Some((Lower(c) - 'a') as nat + 10)
    else None
  }

  function HexOf(s: string): Option<nat> {
    if s == "" then Some(0)
    else
      match (HexOf(s[..|s| - 1]), HexValue(s[|s| - 1]))
      case (Some(n), Some(d)) => Some(n * 16 + d)
      case _ => None
  }

  // --- the head --------------------------------------------------------------------------------

  function Fail(s: State, why: Failure): State {
    s.(stage := Broken, failure := if s.failure == NoFailure then why else s.failure)
  }

  /** The status a status line gives. */
  function StatusOf(line: string): (r: (Failure, nat)) {
    if |line| < 12 || !SameIgnoringCase(line[..5], "http/") then (NotHttp, 0)
    else
      match Find(line, ' ')
      case None => (MalformedStatusLine, 0)
      case Some(space) =>
        if space + 4 > |line| then (MalformedStatusLine, 0)
        else if !AllDigits(line[space + 1..space + 4]) then (MalformedStatusCode, 0)
        else (NoFailure, NatOf(line[space + 1..space + 4]))
  }

  function TakeStatusLine(s: State, line: string): (t: State)
    ensures t.pending == s.pending
  {
    var (why, status) := StatusOf(line);
    if why != NoFailure then Fail(s, why) else s.(status := status, stage := Headers)
  }

  predicate IsBlank(line: string) { line == "" || line == "\r" }

  /** What the header fields so far have said about the body. */
  datatype Declared = Declared(contentLength: int, chunked: bool)

  /** How one header field changes that. */
  function FieldOf(d: Declared, line: string): (r: (Failure, Declared)) {
    match Find(line, ':')
    case None => (MalformedHeader, d)
    case Some(colon) =>
      var name := Trimmed(line[..colon]);
      var value := Trimmed(line[colon + 1..]);
      if SameIgnoringCase(name, "content-length") then
        match LengthOf(value)
        case (why, length) => if why != NoFailure then (why, d) else (NoFailure, d.(contentLength := length))
      else if SameIgnoringCase(name, "transfer-encoding") && SameIgnoringCase(value, "chunked") then
        (NoFailure, Declared(-1, true))
      else (NoFailure, d)
  }

  function LengthOf(value: string): (Failure, nat) {
    if value == "" then (EmptyContentLength, 0) else LengthFrom(value, 0, 0)
  }

  /** The loop over the digits, from digit i on. */
  function LengthFrom(value: string, i: nat, length: nat): (Failure, nat)
    requires i <= |value|
    decreases |value| - i
  {
    if i == |value| then (NoFailure, length)
    else if !IsDigit(value[i]) then (MalformedContentLength, 0)
    else
      var length' := length * 10 + DigitValue(value[i]);
      if length' > MAX_CONTENT_LENGTH then (AbsurdContentLength, 0) else LengthFrom(value, i + 1, length')
  }

  /** A header line that is not blank. */
  function TakeField(s: State, line: string): (t: State)
    ensures t.pending == s.pending
  {
    var (why, d) := FieldOf(Declared(s.contentLength, s.chunked), line);
    if why != NoFailure then Fail(s, why) else s.(contentLength := d.contentLength, chunked := d.chunked)
  }

  function TakeHeader(s: State, line: string): (t: State)
    ensures t.pending == s.pending
  {
    if IsBlank(line) then
      if s.status == 204 || s.status == 304 then s.(stage := Complete, complete := true)
      else s.(stage := if s.chunked then Chunk else Body)
    else TakeField(s, line)
  }

  function InHead(s: State): bool {
    s.stage == Status || s.stage == Headers
  }

  function TakeLine(s: State, line: string): State {
    if s.stage == Status then TakeStatusLine(s, line) else TakeHeader(s, line)
  }

  /** The loop of feed, fed being the size of the piece it was called with. */
  function HeadLoop(s: State, fed: nat): State
    decreases |s.pending|
  {
    if !InHead(s) then s
    else
      match Find(s.pending, '\n')
      case None =>
        var t := s.(headerBytes := s.headerBytes + fed);
        if t.headerBytes > MAX_HEADER_BYTES then Fail(t, HeadersTooLong) else t
      case Some(eol) =>
        var t := s.(headerBytes := s.headerBytes + eol + 1);
        if t.headerBytes > MAX_HEADER_BYTES then Fail(t, HeadersTooLong)
        else HeadLoop(TakeLine(t, Stripped(s.pending[..eol])).(pending := s.pending[eol + 1..]), fed)
  }

  // --- the body ----------------------------------------------------------------------------------

  function Room(s: State): nat {
    if MAX_BODY_BYTES > |s.body| then MAX_BODY_BYTES - |s.body| else 0
  }

  function Finished(s: State): State {
    s.(stage := Complete, complete := true)
  }

  /** What is pending, kept as far as there is room. */
  function BodyKept(s: State): State {
    var take := Min(|s.pending|, Room(s));
    s.(body := s.body + s.pending[..take],
       truncated := s.truncated || take < |s.pending|,
       bodyTaken := s.bodyTaken + |s.pending|,
       pending := "")
  }

  function TakeBody(s: State): State {
    var t := BodyKept(s);
    if t.contentLength >= 0 && t.bodyTaken >= t.contentLength then Finished(t)
    else if t.truncated && t.contentLength < 0 then Finished(t)
    else t
  }

  function BeforeSemicolon(s: string): string {
    match Find(s, ';')
    case None => s
    case Some(i) => s[..i]
  }

  /** The size a chunk's size line gives. */
  function ChunkSize(line: string): Option<nat> {
    var header := Trimmed(BeforeSemicolon(line));
    if header == "" || |header| > 8 then None else HexOf(header)
  }

  /** The chunk at the front of what is pending, kept as far as there is room. */
  function ChunkAdded(s: State, eol: nat, size: nat): (t: State)
    requires |s.pending| >= eol + 2 + size + 2
    ensures t.stage == s.stage && |t.pending| == |s.pending| - (eol + 2 + size + 2)
  {
    var take := Min(size, Room(s));
    s.(body := s.body + s.pending[eol + 2..eol + 2 + take],
       truncated := s.truncated || take < size,
       pending := s.pending[eol + 2 + size + 2..])
  }

  function TakeChunks(s: State): State
    decreases |s.pending|
  {
    match FindCrLf(s.pending)
    case None => if |s.pending| > 64 then Fail(s, MalformedChunkSize) else s
    case Some(eol) =>
      match ChunkSize(s.pending[..eol])
      case None => Fail(s, MalformedChunkSize)
      case Some(size) =>
        if size == 0 then Finished(s).(pending := "")
        else if |s.pending| < eol + 2 + size + 2 then s
        else
          var t := ChunkAdded(s, eol, size);
          if t.truncated then Finished(t).(pending := "") else TakeChunks(t)
  }

  function Feed(s: State, bytes: string): State {
    if s.stage == Broken || s.stage == Complete then s
    else
      var t := HeadLoop(s.(pending := s.pending + bytes), |bytes|);
      if t.stage == Body then TakeBody(t)
      else if t.stage == Chunk then TakeChunks(t)
      else t
  }

  /** The state after pieces, fed in order. */
  function FeedAll(s: State, pieces: seq<string>): State
    decreases |pieces|
  {
    if pieces == [] then s else FeedAll(Feed(s, pieces[0]), pieces[1..])
  }
}
