/**
 However a response is cut into pieces, the parser of HttpResponse ends with the
 same status and the same body, or refuses it for the same reason.
 */
module HttpCuts {
  import opened Basics
  import opened HttpResponse
  import opened Numerals

  // --- responses -----------------------------------------------------------------------------

  datatype Piece = Piece(sizeLine: string, data: string)

  /** What follows the head (section 6.3 of RFC 9112): a body whose length is
      declared, one in chunks up to one of size zero, or up to a size line that cannot
      be read, one that ends with the
      connection, or, after a status that never has one, bytes that are no body. The
      last line of a head may also be one that is refused. */
  datatype Framing =
    | Sized(payload: string)
    | Chunks(pieces: seq<Piece>, last: string, trailer: string)
    | Open(payload: string)
    | Bodiless(after: string)
    | Refused(why: Failure, after: string)

  /** The lines of the head, without their line feeds; the last one is blank, or refused. */
  datatype Message = Message(lines: seq<string>, framing: Framing)

  function LinesText(lines: seq<string>): string {
    if lines == [] then "" else lines[0] + "\n" + LinesText(lines[1..])
  }

  function ChunksText(pieces: seq<Piece>, last: string, trailer: string): string {
    if pieces == [] then last + "\r\n" + trailer
    else pieces[0].sizeLine + "\r\n" + pieces[0].data + "\r\n" + ChunksText(pieces[1..], last, trailer)
  }

  function BodyText(framing: Framing): string {
    match framing
    case Sized(payload) => payload
    case Chunks(pieces, last, trailer) => ChunksText(pieces, last, trailer)
    case Open(payload) => payload
    case Bodiless(after) => after
    case Refused(_, after) => after
  }

  function MessageText(m: Message): string {
    LinesText(m.lines) + BodyText(m.framing)
  }

  function Joined(pieces: seq<Piece>): string {
    if pieces == [] then "" else pieces[0].data + Joined(pieces[1..])
  }

  function Payload(framing: Framing): string {
    match framing
    case Sized(payload) => payload
    case Chunks(pieces, _, _) => Joined(pieces)
    case Open(payload) => payload
    case _ => ""
  }

  predicate IsSizeLine(line: string, size: nat) {
    FindCrLf(line + "\r\n") == Some(|line|) && ChunkSize(line) == Some(size)
  }

  /** A line that gives no size. */
  predicate IsBadLine(line: string) {
    FindCrLf(line + "\r\n") == Some(|line|) && ChunkSize(line) == None
  }

  /** The line the chunks end with. */
  predicate EndsChunks(line: string) {
    IsSizeLine(line, 0) || IsBadLine(line)
  }

  predicate PiecesFit(pieces: seq<Piece>) {
    pieces == [] ||
    (pieces[0].data != "" && IsSizeLine(pieces[0].sizeLine, |pieces[0].data|) && PiecesFit(pieces[1..]))
  }

  predicate Fits(d: Declared, framing: Framing) {
    match framing
    case Sized(payload) => !d.chunked && d.contentLength == |payload|
    case Chunks(pieces, last, _) => d.chunked && PiecesFit(pieces) && EndsChunks(last)
    case Open(_) => !d.chunked && d.contentLength < 0
    case Bodiless(_) => true
    case Refused(_, _) => false
  }

  /** The head ends with a line that is refused for the reason the framing gives. */
  predicate IsWhy(why: Failure, framing: Framing) {
    framing.Refused? && why == framing.why != NoFailure
  }

  /** The fields are well formed and announce the framing, given what fields
      before them declared. */
  predicate FieldsFit(d: Declared, lines: seq<string>, framing: Framing)
    decreases |lines|
  {
    lines != [] && '\n' !in lines[0] &&
    var line := Stripped(lines[0]);
    if |lines| == 1 then
      if IsBlank(line) then Fits(d, framing) else IsWhy(FieldOf(d, line).0, framing)
    else
      var (why, d') := FieldOf(d, line);
      !IsBlank(line) && why == NoFailure && FieldsFit(d', lines[1..], framing)
  }

  /** The statuses that never have a body, whatever the fields declare. */
  predicate NeverHasBody(status: nat) { status == 204 || status == 304 }

  /** What follows the head is what may follow this status. */
  predicate MayFollow(status: nat, framing: Framing) {
    framing.Refused? || (NeverHasBody(status) <==> framing.Bodiless?)
  }

  /** A response with the given status, as far as it goes: 0 when the status line is
      what is refused. */
  predicate WellFormed(m: Message, status: nat) {
    && m.lines != [] && '\n' !in m.lines[0]
    && var (why, code) := StatusOf(Stripped(m.lines[0]));
       if |m.lines| == 1 then status == 0 && IsWhy(why, m.framing)
       else
         && why == NoFailure && code == status && MayFollow(status, m.framing)
         && FieldsFit(Declared(-1, false), m.lines[1..], m.framing)
  }

  /** A size line that a cut cannot make look endless. */
  const MAX_SIZE_LINE := 63

  /** The size lines that are read, after done, are short: reading stops once more has
      come than is kept, and one that cannot be read is refused at any length. */
  predicate ShortFrom(done: nat, pieces: seq<Piece>, last: string)
    decreases |pieces|
  {
    if pieces == [] then |last| <= MAX_SIZE_LINE || ChunkSize(last) == None
    else
      && |pieces[0].sizeLine| <= MAX_SIZE_LINE
      && (done + |pieces[0].data| > MAX_BODY_BYTES || ShortFrom(done + |pieces[0].data|, pieces[1..], last))
  }

  predicate ShortSizeLines(framing: Framing) {
    match framing
    case Chunks(pieces, last, _) => ShortFrom(0, pieces, last)
    case _ => true
  }

  function Kept(payload: string): string {
    if |payload| > MAX_BODY_BYTES then payload[..MAX_BODY_BYTES] else payload
  }

  predicate Received(s: State, status: nat, payload: string) {
    && s.stage == Complete && s.complete && s.status == status
    && s.body == Kept(payload) && (s.truncated <==> |payload| > MAX_BODY_BYTES)
  }

  /** The chunks come to a line that gives no size before more has come than is kept. */
  predicate Garbled(framing: Framing) {
    framing.Chunks? && ChunkSize(framing.last) == None && |Joined(framing.pieces)| <= MAX_BODY_BYTES
  }

  predicate Refuses(s: State, why: Failure, status: nat, body: string) {
    s.stage == Broken && s.failure == why && s.status == status && s.body == body && !s.complete
  }

  /** The whole message has been taken, or refused for the right reason. A body that
      ends with the connection is complete only once more has come than is kept. */
  predicate Answered(s: State, status: nat, framing: Framing) {
    if framing.Refused? then Refuses(s, framing.why, status, "")
    else if Garbled(framing) then Refuses(s, MalformedChunkSize, status, Joined(framing.pieces))
    else if framing.Open? && |framing.payload| <= MAX_BODY_BYTES then
      s.stage == Body && !s.complete && s.status == status && s.body == framing.payload && !s.truncated
    else Received(s, status, Payload(framing))
  }

  // --- where the parser stands between two pieces ------------------------------------------------

  datatype Position =
    | AtLines(lines: seq<string>)
    | AtSized(done: string, left: string)
    | AtChunks(done: string, pieces: seq<Piece>)
    | AtOpen(done: string)
    | AtEnd

  /** Reading the head: lines are still to come, and head is all their bytes. */
  predicate ReadsHead(s: State, rest: string, m: Message, status: nat, lines: seq<string>) {
    && InHead(s) && s.pending + rest == LinesText(lines) + BodyText(m.framing)
    && s.body == "" && !s.truncated && s.bodyTaken == 0 && !s.complete && s.failure == NoFailure
    && if s.stage == Status then
         lines == m.lines && WellFormed(m, status) && s.contentLength == -1 && !s.chunked && s.status == 0
       else
         && s.status == status && MayFollow(status, m.framing)
         && FieldsFit(Declared(s.contentLength, s.chunked), lines, m.framing)
  }

  /** The bytes counted so far: each line once, and each piece that ended in the
      head once more. fed bytes of the message came in such pieces. */
  predicate Counted(s: State, head: nat, lines: seq<string>, fed: nat) {
    |LinesText(lines)| <= head && s.headerBytes == head - |LinesText(lines)| + fed
  }

  predicate ReadsSized(s: State, rest: string, payload: string, done: string) {
    && s.stage == Body && done + s.pending + rest == payload
    && s.contentLength == |payload| && s.bodyTaken == |done|
    && s.body == Kept(done) && (s.truncated <==> |done| > MAX_BODY_BYTES)
  }

  predicate ReadsChunks(s: State, rest: string, framing: Framing, done: string, pieces: seq<Piece>) {
    && s.stage == Chunk && framing.Chunks? && s.failure == NoFailure && !s.complete
    && s.pending + rest == ChunksText(pieces, framing.last, framing.trailer)
    && s.body == done && |done| <= MAX_BODY_BYTES && !s.truncated
    && done + Joined(pieces) == Joined(framing.pieces)
    && PiecesFit(pieces) && EndsChunks(framing.last)
  }

  predicate ReadsOpen(s: State, rest: string, payload: string, done: string) {
    && s.stage == Body && done + s.pending + rest == payload
    && s.contentLength < 0 && !s.complete
    && s.body == done && |done| <= MAX_BODY_BYTES && !s.truncated
  }

  predicate Expects(s: State, rest: string, m: Message, status: nat, p: Position) {
    match p
    case AtLines(lines) =>
      && rest != "" && ReadsHead(s, rest, m, status, lines) && |s.pending| < |LinesText(lines)|
      && |LinesText(lines)| <= |LinesText(m.lines)|
      && Counted(s, |LinesText(m.lines)|, lines, |LinesText(m.lines)| - |LinesText(lines)| + |s.pending|)
    case AtSized(done, left) =>
      rest != "" && s.status == status && s.pending == "" && m.framing.Sized? && ReadsSized(s, rest, m.framing.payload, done)
    case AtChunks(done, pieces) =>
      rest != "" && s.status == status && ReadsChunks(s, rest, m.framing, done, pieces)
      && ShortFrom(|done|, pieces, m.framing.last)
    case AtOpen(done) =>
      s.status == status && s.pending == "" && m.framing.Open? && ReadsOpen(s, rest, m.framing.payload, done)
    case AtEnd => (s.stage == Complete || s.stage == Broken) && Answered(s, status, m.framing)
  }

  // --- finding line ends ----------------------------------------------------------------------------

  lemma {:induction false} FindPrefix(s: string, c: char, n: nat)
    requires n <= |s| && Find(s, c).Some?
    ensures Find(s[..n], c) == if n > Find(s, c).value then Find(s, c) else None
  {
    if n > 0 && s[0] != c {
      FindPrefix(s[1..], c, n - 1);
      assert s[..n][1..] == s[1..][..n - 1];
    }
  }

  lemma {:induction false} FindAfter(line: string, c: char, after: string)
    requires c !in line
    ensures Find(line + [c] + after, c) == Some(|line|)
  {
    if line != "" {
      FindAfter(line[1..], c, after);
      assert (line + [c] + after)[1..] == line[1..] + [c] + after;
    }
  }

  /** The first line's end is found exactly when it has arrived. */
  lemma FindsLine(pending: string, rest: string, line: string, after: string)
    requires pending + rest == line + "\n" + after && '\n' !in line
    ensures if |pending| > |line| then
              Find(pending, '\n') == Some(|line|) && pending[..|line|] == line && pending[|line| + 1..] + rest == after
            else Find(pending, '\n') == None
  {
    hide Find;
    var all := line + "\n" + after;
    FindAfter(line, '\n', after);
    FindPrefix(all, '\n', |pending|);
    assert pending == all[..|pending|];
    if |pending| > |line| {
      assert pending[..|line|] == line;
      assert pending[|line| + 1..] + rest == all[|line| + 1..];
    }
  }

  lemma {:induction false} CrLfPrefix(s: string, n: nat)
    requires n <= |s| && FindCrLf(s).Some?
    ensures FindCrLf(s[..n]) == if n >= FindCrLf(s).value + 2 then FindCrLf(s) else None
  {
    if n < 2 {
    } else if s[0] == '\r' && s[1] == '\n' {
    } else {
      CrLfPrefix(s[1..], n - 1);
      assert s[..n][1..] == s[1..][..n - 1];
    }
  }

  lemma {:induction false} CrLfExtended(s: string, t: string)
    requires FindCrLf(s).Some?
    ensures FindCrLf(s + t) == FindCrLf(s)
  {
    if s[0] == '\r' && s[1] == '\n' {
    } else {
      CrLfExtended(s[1..], t);
      assert (s + t)[1..] == s[1..] + t;
    }
  }

  /** The size line's end is found exactly when it has arrived. */
  lemma FindsSizeLine(pending: string, rest: string, line: string, after: string)
    requires pending + rest == line + "\r\n" + after && FindCrLf(line + "\r\n") == Some(|line|)
    ensures if |pending| >= |line| + 2 then
              FindCrLf(pending) == Some(|line|) && pending[..|line|] == line && pending[|line| + 2..] + rest == after
            else FindCrLf(pending) == None
  {
    var all := line + "\r\n" + after;
    CrLfExtended(line + "\r\n", after);
    CrLfPrefix(all, |pending|);
    assert pending == all[..|pending|];
    if |pending| >= |line| + 2 {
      assert pending[..|line|] == line;
      assert pending[|line| + 2..] + rest == all[|line| + 2..];
    }
  }

  // --- the head ----------------------------------------------------------------------------------------

  /** The head is behind, and the body's first bytes may have come with it. */
  predicate PastHead(s: State, rest: string, m: Message, status: nat) {
    && s.status == status && s.pending + rest == BodyText(m.framing)
    && s.body == "" && !s.truncated && s.bodyTaken == 0
    && match m.framing
       case Sized(payload) => s.stage == Body && s.contentLength == |payload|
       case Chunks(pieces, last, _) => s.stage == Chunk && s.failure == NoFailure && !s.complete && PiecesFit(pieces) && EndsChunks(last)
       case Open(_) => s.stage == Body && s.contentLength < 0 && !s.complete
       case Bodiless(_) => s.stage == Complete && s.complete
       case Refused(why, _) => s.stage == Broken && s.failure == why && !s.complete
  }

  /** The head was longer than is accepted. */
  predicate TooLong(s: State) {
    s.stage == Broken && s.failure == HeadersTooLong
  }

  lemma LinesNotTooLong(d: Declared, line: string)
    ensures StatusOf(line).0 != HeadersTooLong && FieldOf(d, line).0 != HeadersTooLong
  {
    hide Find, Trimmed, NatOf, SameIgnoringCase;
    if Find(line, ':').Some? {
      LengthNotTooLong(Trimmed(line[Find(line, ':').value + 1..]), 0, 0);
    }
  }

  lemma {:induction false} LengthNotTooLong(value: string, i: nat, length: nat)
    requires i <= |value|
    ensures LengthFrom(value, i, length).0 != HeadersTooLong
    decreases |value| - i
  {
    if i < |value| && IsDigit(value[i]) {
      LengthNotTooLong(value, i + 1, length * 10 + DigitValue(value[i]));
    }
  }

  lemma {:induction false} FieldsNotTooLong(d: Declared, lines: seq<string>, framing: Framing)
    requires FieldsFit(d, lines, framing) && framing.Refused?
    ensures framing.why != HeadersTooLong
    decreases |lines|
  {
    hide FieldOf, Stripped;
    LinesNotTooLong(d, Stripped(lines[0]));
    if |lines| > 1 {
      FieldsNotTooLong(FieldOf(d, Stripped(lines[0])).1, lines[1..], framing);
    }
  }

  lemma TooLongUnanswered(s: State, m: Message, status: nat)
    requires WellFormed(m, status) && TooLong(s)
    ensures !Answered(s, status, m.framing)
  {
    hide FieldsFit, StatusOf, Stripped;
    LinesNotTooLong(Declared(-1, false), Stripped(m.lines[0]));
    if m.framing.Refused? && |m.lines| > 1 {
      FieldsNotTooLong(Declared(-1, false), m.lines[1..], m.framing);
    }
  }

  function AfterLine(s: State, line: string): State
    requires |s.pending| > |line|
  {
    TakeLine(s, Stripped(line)).(pending := s.pending[|line| + 1..])
  }

  lemma LineTaken(s: State, rest: string, m: Message, status: nat, lines: seq<string>)
    requires ReadsHead(s, rest, m, status, lines) && |s.pending| > |lines[0]|
    ensures var t := AfterLine(s, lines[0]);
      && t.headerBytes == s.headerBytes && lines[0] == s.pending[..|lines[0]|]
      && Find(s.pending, '\n') == Some(|lines[0]|)
      && if InHead(t) then ReadsHead(t, rest, m, status, lines[1..])
         else !TooLong(t) && LinesText(lines[1..]) == "" && PastHead(t, rest, m, status)
  {
    hide StatusOf, FieldOf, Stripped, Find, PiecesFit, IsSizeLine;
    LinesNotTooLong(Declared(s.contentLength, s.chunked), Stripped(lines[0]));
    var after := LinesText(lines[1..]) + BodyText(m.framing);
    assert s.pending + rest == lines[0] + "\n" + after;
    FindsLine(s.pending, rest, lines[0], after);
    if s.stage == Headers && |lines| == 1 {
      assert LinesText(lines[1..]) == "";
    }
  }

  /** One line is taken; u is where the loop goes on from. */
  lemma HeadTurn(s: State, fed: nat, rest: string, m: Message, status: nat, lines: seq<string>) returns (u: State)
    requires lines != [] && ReadsHead(s, rest, m, status, lines) && |s.pending| > |lines[0]|
    ensures u.headerBytes == s.headerBytes + |lines[0]| + 1 && |u.pending| == |s.pending| - |lines[0]| - 1
    ensures if InHead(u) then ReadsHead(u, rest, m, status, lines[1..])
            else !TooLong(u) && LinesText(lines[1..]) == "" && PastHead(u, rest, m, status)
    ensures var t := HeadLoop(s, fed);
      if u.headerBytes > MAX_HEADER_BYTES then TooLong(t)
      else if InHead(u) then t == HeadLoop(u, fed)
      else t == u
  {
    hide HeadLoop, AfterLine, PastHead, ReadsHead, LinesText, Find, BodyText;
    var t := s.(headerBytes := s.headerBytes + |lines[0]| + 1);
    LinesUnfold(s, rest, m, status, lines);
    HeadLoopLine(s, fed, lines[0]);
    HeadIgnoresCount(s, t.headerBytes, rest, m, status, lines);
    LineTaken(t, rest, m, status, lines);
    u := AfterLine(t, lines[0]);
  }

  lemma {:induction false} HeadRuns(s: State, fed: nat, rest: string, m: Message, status: nat, lines: seq<string>, before: nat)
    returns (left: seq<string>)
    requires ReadsHead(s, rest, m, status, lines)
    requires var head := |LinesText(m.lines)|;
      && before < head && |LinesText(lines)| <= head
      && Counted(s, head, lines, before) && before + fed == head - |LinesText(lines)| + |s.pending|
    ensures var t := HeadLoop(s, fed); var head := |LinesText(m.lines)|;
      if InHead(t) then
        && ReadsHead(t, rest, m, status, left) && |t.pending| < |LinesText(left)| <= head
        && Counted(t, head, left, before + fed) && before + fed == head - |LinesText(left)| + |t.pending|
      else if TooLong(t) then 2 * head > MAX_HEADER_BYTES + 1
      else PastHead(t, rest, m, status) && head + before <= MAX_HEADER_BYTES
    decreases |s.pending|
  {
    hide HeadLoop, AfterLine, PastHead, ReadsHead, LinesText, Find, BodyText;
    left := lines;
    LinesUnfold(s, rest, m, status, lines);
    if |s.pending| > |lines[0]| {
      var u := HeadTurn(s, fed, rest, m, status, lines);
      if s.headerBytes + |lines[0]| + 1 <= MAX_HEADER_BYTES && InHead(u) {
        left := HeadRuns(u, fed, rest, m, status, lines[1..], before);
      }
    } else {
      HeadLoopEnd(s, fed);
      HeadIgnoresCount(s, s.headerBytes + fed, rest, m, status, lines);
    }
  }

  /** One turn of the loop of feed: a line has arrived, or none has. */
  lemma HeadLoopLine(s: State, fed: nat, line: string)
    requires InHead(s) && Find(s.pending, '\n') == Some(|line|) && s.pending[..|line|] == line
    ensures var t := s.(headerBytes := s.headerBytes + |line| + 1);
      HeadLoop(s, fed) ==
      if t.headerBytes > MAX_HEADER_BYTES then Fail(t, HeadersTooLong)
      else if InHead(AfterLine(t, line)) then HeadLoop(AfterLine(t, line), fed) else AfterLine(t, line)
    ensures |AfterLine(s.(headerBytes := s.headerBytes + |line| + 1), line).pending| == |s.pending| - |line| - 1
  {
    hide TakeLine, Stripped, Find;
  }

  lemma HeadLoopEnd(s: State, fed: nat)
    requires InHead(s) && Find(s.pending, '\n') == None
    ensures var t := s.(headerBytes := s.headerBytes + fed);
      HeadLoop(s, fed) == if t.headerBytes > MAX_HEADER_BYTES then Fail(t, HeadersTooLong) else t
  {
    hide Find;
  }

  lemma LinesUnfold(s: State, rest: string, m: Message, status: nat, lines: seq<string>)
    requires ReadsHead(s, rest, m, status, lines)
    ensures InHead(s) && s.failure == NoFailure && lines != [] && LinesText(lines) == lines[0] + "\n" + LinesText(lines[1..])
    ensures |s.pending| <= |lines[0]| ==> Find(s.pending, '\n') == None
    ensures |s.pending| > |lines[0]| ==> Find(s.pending, '\n') == Some(|lines[0]|) && s.pending[..|lines[0]|] == lines[0]
  {
    hide StatusOf, FieldOf, Stripped, Find, PiecesFit, IsSizeLine;
    var after := LinesText(lines[1..]) + BodyText(m.framing);
    assert s.pending + rest == lines[0] + "\n" + after;
    FindsLine(s.pending, rest, lines[0], after);
  }

  lemma HeadIgnoresCount(s: State, n: nat, rest: string, m: Message, status: nat, lines: seq<string>)
    requires ReadsHead(s, rest, m, status, lines)
    ensures ReadsHead(s.(headerBytes := n), rest, m, status, lines)
  {
    hide StatusOf, FieldOf, Stripped, Find, PiecesFit, IsSizeLine, LinesText, BodyText, WellFormed, FieldsFit;
  }

  // --- the body ----------------------------------------------------------------------------------------

  lemma BodyRuns(s: State, rest: string, payload: string, done: string)
    requires ReadsSized(s, rest, payload, done)
    ensures TakeBody(s).status == s.status
    ensures rest == "" ==> Received(TakeBody(s), s.status, payload)
    ensures rest != "" ==> TakeBody(s).pending == "" && ReadsSized(TakeBody(s), rest, payload, done + s.pending)
  {
    var done' := done + s.pending;
    assert rest == "" ==> done' == payload;
    KeptGrows(done, s.pending);
  }

  lemma KeptGrows(done: string, more: string)
    ensures Kept(done + more) == Kept(done) + more[..Taken(done, more)]
    ensures |done + more| > MAX_BODY_BYTES <==> |done| > MAX_BODY_BYTES || Taken(done, more) < |more|
  {
  }

  /** How much of more is kept after done. */
  function Taken(done: string, more: string): (n: nat)
    ensures n <= |more|
  {
    Min(|more|, if MAX_BODY_BYTES > |Kept(done)| then MAX_BODY_BYTES - |Kept(done)| else 0)
  }

  lemma KeptWhole(done: string, rest: string)
    ensures |done| <= MAX_BODY_BYTES ==> Kept(done) == done
    ensures |done| > MAX_BODY_BYTES ==> Kept(done + rest) == Kept(done)
  {
  }

  /** A whole chunk is at the front of what is pending. */
  lemma ChunkTaken(s: State, rest: string, framing: Framing, done: string, pieces: seq<Piece>)
    requires ReadsChunks(s, rest, framing, done, pieces) && pieces != []
    requires var p := pieces[0]; |s.pending| >= |p.sizeLine| + 2 + |p.data| + 2
    ensures var p := pieces[0]; var from := |p.sizeLine| + 2; var next := from + |p.data| + 2;
      && s.pending[from..from + |p.data|] == p.data
      && s.pending[next..] + rest == ChunksText(pieces[1..], framing.last, framing.trailer)
  {
    hide ChunksText, Joined, FindCrLf, ChunkSize;
    var p := pieces[0];
    var after := ChunksText(pieces[1..], framing.last, framing.trailer);
    ChunksUnfold(pieces, framing.last, framing.trailer);
    Peel(s.pending, rest, p.sizeLine + "\r\n", p.data + ("\r\n" + after));
    var from := |p.sizeLine| + 2;
    Peel(s.pending[from..], rest, p.data, "\r\n" + after);
    Peel(s.pending[from..][|p.data|..], rest, "\r\n", after);
    assert s.pending[from..][|p.data|..][2..] == s.pending[from + |p.data| + 2..];
  }

  lemma ChunksUnfold(pieces: seq<Piece>, last: string, trailer: string)
    requires pieces != []
    ensures ChunksText(pieces, last, trailer)
         == (pieces[0].sizeLine + "\r\n") + (pieces[0].data + ("\r\n" + ChunksText(pieces[1..], last, trailer)))
  {
    var p, after := pieces[0], ChunksText(pieces[1..], last, trailer);
    assert p.sizeLine + "\r\n" + p.data + "\r\n" + after == (p.sizeLine + "\r\n") + (p.data + ("\r\n" + after));
  }

  /** The first of two parts has arrived whole. */
  lemma Peel(pending: string, rest: string, a: string, b: string)
    requires pending + rest == a + b && |pending| >= |a|
    ensures pending[..|a|] == a && pending[|a|..] + rest == b
  {
    assert (pending + rest)[..|a|] == a && (pending + rest)[|a|..] == b;
  }

  /** One turn of consumeChunks. */
  lemma ChunkStep(s: State, eol: nat, size: nat)
    requires FindCrLf(s.pending) == Some(eol) && ChunkSize(s.pending[..eol]) == Some(size)
    ensures size == 0 ==> TakeChunks(s) == Finished(s).(pending := "")
    ensures size > 0 && |s.pending| < eol + size + 4 ==> TakeChunks(s) == s
    ensures size > 0 && |s.pending| >= eol + size + 4 ==>
      TakeChunks(s) == var t := ChunkAdded(s, eol, size); if t.truncated then Finished(t).(pending := "") else TakeChunks(t)
  {
    hide FindCrLf, ChunkSize, ChunkAdded;
  }

  lemma ChunkUnended(s: State)
    requires FindCrLf(s.pending) == None
    ensures TakeChunks(s) == if |s.pending| > 64 then Fail(s, MalformedChunkSize) else s
  {
    hide FindCrLf, ChunkSize;
  }

  lemma ChunkRefused(s: State, eol: nat)
    requires FindCrLf(s.pending) == Some(eol) && ChunkSize(s.pending[..eol]) == None
    ensures TakeChunks(s) == Fail(s, MalformedChunkSize)
  {
    hide FindCrLf, ChunkSize;
  }

  /** The end of the chunks. */
  lemma LastChunkRuns(s: State, rest: string, framing: Framing, done: string)
    requires ReadsChunks(s, rest, framing, done, []) && ShortFrom(|done|, [], framing.last)
    ensures TakeChunks(s).status == s.status
    ensures if TakeChunks(s).stage == Chunk then rest != "" && TakeChunks(s) == s
            else TakeChunks(s).stage in {Complete, Broken} && Answered(TakeChunks(s), s.status, framing)
  {
    hide FindCrLf, ChunkSize, TakeChunks;
    var line := framing.last;
    assert s.pending + rest == line + "\r\n" + framing.trailer;
    FindsSizeLine(s.pending, rest, line, framing.trailer);
    if |s.pending| >= |line| + 2 {
      if ChunkSize(line) == None {
        ChunkRefused(s, |line|);
      } else {
        ChunkStep(s, |line|, 0);
      }
    } else {
      ChunkUnended(s);
    }
    assert done + "" == done == Joined(framing.pieces);
  }

  /** A whole chunk has arrived: it is taken, up to what there is room for. */
  lemma ChunkTurn(s: State, rest: string, framing: Framing, done: string, pieces: seq<Piece>)
    requires ReadsChunks(s, rest, framing, done, pieces) && pieces != []
    requires |s.pending| >= |pieces[0].sizeLine| + |pieces[0].data| + 4
    ensures var p := pieces[0]; var take := Taken(done, p.data);
      var t := s.(body := done + p.data[..take], truncated := take < |p.data|,
                  pending := s.pending[|p.sizeLine| + |p.data| + 4..]);
      TakeChunks(s) == if t.truncated then Finished(t).(pending := "") else TakeChunks(t)
  {
    hide FindCrLf, ChunkSize, TakeChunks, PiecesFit, ChunksText, Joined;
    var p := pieces[0];
    ChunkArrived(s, rest, framing, done, pieces);
    PiecesFollow(pieces);
    ChunkStep(s, |p.sizeLine|, |p.data|);
    ChunkTaken(s, rest, framing, done, pieces);
    KeptWhole(done, "");
    var from, take := |p.sizeLine| + 2, Taken(done, p.data);
    SliceOfSlice(s.pending, from, from + |p.data|, take);
  }

  lemma SliceOfSlice(s: string, i: nat, j: nat, n: nat)
    requires i + n <= j <= |s|
    ensures s[i..i + n] == s[i..j][..n]
  {
  }

  lemma ChunkEnds(s: State, rest: string, framing: Framing, done: string, pieces: seq<Piece>)
    requires ReadsChunks(s, rest, framing, done, pieces) && pieces != []
    requires |s.pending| >= |pieces[0].sizeLine| + |pieces[0].data| + 4
    requires |done + pieces[0].data| > MAX_BODY_BYTES
    ensures TakeChunks(s).stage == Complete && TakeChunks(s).status == s.status && Answered(TakeChunks(s), s.status, framing)
  {
    hide TakeChunks, PiecesFit, ChunksText, Kept, Taken, FindCrLf, ChunkSize;
    ChunkTurn(s, rest, framing, done, pieces);
    var data, later := pieces[0].data, Joined(pieces[1..]);
    KeptWhole(done, "");
    KeptGrows(done, data);
    KeptWhole(done + data, later);
    assert done + data + later == done + (data + later);
  }

  lemma ChunkFollows(s: State, rest: string, framing: Framing, done: string, pieces: seq<Piece>) returns (t: State)
    requires ReadsChunks(s, rest, framing, done, pieces) && pieces != []
    requires |s.pending| >= |pieces[0].sizeLine| + |pieces[0].data| + 4
    requires |done + pieces[0].data| <= MAX_BODY_BYTES
    ensures t.status == s.status && TakeChunks(s) == TakeChunks(t)
    ensures |t.pending| == |s.pending| - (|pieces[0].sizeLine| + |pieces[0].data| + 4)
    ensures ReadsChunks(t, rest, framing, done + pieces[0].data, pieces[1..])
  {
    hide TakeChunks, PiecesFit, ChunksText, Kept, Taken, Joined, FindCrLf, ChunkSize;
    var data := pieces[0].data;
    ChunkTurn(s, rest, framing, done, pieces);
    TakenWhole(done, data);
    ChunkTaken(s, rest, framing, done, pieces);
    PiecesFollow(pieces);
    JoinedFollow(done, pieces);
    t := s.(body := done + data, truncated := false, pending := s.pending[|pieces[0].sizeLine| + |data| + 4..]);
  }

  lemma TakenWhole(done: string, data: string)
    requires |done + data| <= MAX_BODY_BYTES
    ensures Taken(done, data) == |data| && data[..|data|] == data
  {
  }

  lemma JoinedFollow(done: string, pieces: seq<Piece>)
    requires pieces != []
    ensures done + pieces[0].data + Joined(pieces[1..]) == done + Joined(pieces)
  {
  }

  lemma PiecesFollow(pieces: seq<Piece>)
    requires pieces != [] && PiecesFit(pieces)
    ensures pieces[0].data != "" && IsSizeLine(pieces[0].sizeLine, |pieces[0].data|)
    ensures PiecesFit(pieces[1..])
  {
  }

  lemma ChunkArrived(s: State, rest: string, framing: Framing, done: string, pieces: seq<Piece>)
    requires ReadsChunks(s, rest, framing, done, pieces) && pieces != []
    ensures var line := pieces[0].sizeLine;
      if |s.pending| >= |line| + 2 then FindCrLf(s.pending) == Some(|line|) && s.pending[..|line|] == line
      else FindCrLf(s.pending) == None
    ensures |s.pending| < |pieces[0].sizeLine| + |pieces[0].data| + 4 ==> rest != ""
  {
    hide FindCrLf, ChunkSize;
    var p := pieces[0];
    var after := p.data + "\r\n" + ChunksText(pieces[1..], framing.last, framing.trailer);
    assert s.pending + rest == p.sizeLine + "\r\n" + after;
    FindsSizeLine(s.pending, rest, p.sizeLine, after);
  }

  lemma {:induction false} ChunksRun(s: State, rest: string, framing: Framing, done: string, pieces: seq<Piece>)
    returns (done': string, pieces': seq<Piece>)
    requires ReadsChunks(s, rest, framing, done, pieces) && ShortFrom(|done|, pieces, framing.last)
    ensures TakeChunks(s).status == s.status
    ensures if TakeChunks(s).stage == Chunk then
              rest != "" && ReadsChunks(TakeChunks(s), rest, framing, done', pieces') && ShortFrom(|done'|, pieces', framing.last)
            else TakeChunks(s).stage in {Complete, Broken} && Answered(TakeChunks(s), s.status, framing)
    decreases |s.pending|
  {
    hide FindCrLf, ChunkSize, Kept, TakeChunks, ReadsChunks, PiecesFit;
    done', pieces' := done, pieces;
    if pieces == [] {
      LastChunkRuns(s, rest, framing, done);
    } else if |s.pending| >= |pieces[0].sizeLine| + |pieces[0].data| + 4 {
      if |done + pieces[0].data| > MAX_BODY_BYTES {
        ChunkEnds(s, rest, framing, done, pieces);
      } else {
        var t := ChunkFollows(s, rest, framing, done, pieces);
        done', pieces' := ChunksRun(t, rest, framing, done + pieces[0].data, pieces[1..]);
      }
    } else {
      ChunkAwaited(s, rest, framing, done, pieces);
    }
  }

  lemma ChunkAwaited(s: State, rest: string, framing: Framing, done: string, pieces: seq<Piece>)
    requires ReadsChunks(s, rest, framing, done, pieces) && pieces != []
    requires |s.pending| < |pieces[0].sizeLine| + |pieces[0].data| + 4 && |pieces[0].sizeLine| <= MAX_SIZE_LINE
    ensures rest != "" && TakeChunks(s) == s && s.stage == Chunk
  {
    hide FindCrLf, ChunkSize, TakeChunks, ChunksText;
    ChunkArrived(s, rest, framing, done, pieces);
    PiecesFollow(pieces);
    if |s.pending| >= |pieces[0].sizeLine| + 2 {
      ChunkStep(s, |pieces[0].sizeLine|, |pieces[0].data|);
    } else {
      ChunkUnended(s);
    }
  }

  // --- feeding -------------------------------------------------------------------------------------------

  lemma FeedExpects(s: State, bytes: string, rest: string, m: Message, status: nat, p: Position) returns (q: Position)
    requires Expects(s, bytes + rest, m, status, p)
    requires |LinesText(m.lines)| <= MAX_HEADER_BYTES / 2 && ShortSizeLines(m.framing)
    ensures Expects(Feed(s, bytes), rest, m, status, q)
  {
    hide ReadsHead, LinesText, HeadLoop, TakeBody, TakeChunks, ReadsSized, ReadsChunks, PiecesFit, Joined;
    var fed := s.(pending := s.pending + bytes);
    match p {
      case AtEnd =>
        q := AtEnd;
      case AtLines(lines) =>
        HeadFed(s, bytes, rest, m, status, lines);
        var before := |LinesText(m.lines)| - |LinesText(lines)| + |s.pending|;
        var left := HeadRuns(fed, |bytes|, rest, m, status, lines, before);
        var t := HeadLoop(fed, |bytes|);
        if InHead(t) {
          q := AtLines(left);
          HeadGoesOn(t, rest, m, status, left);
        } else {
          q := BodyBegins(t, rest, m, status);
        }
      case AtSized(done, left) =>
        SizedFed(s, bytes, rest, m.framing.payload, done);
        q := SizedRuns(fed, rest, m, status, done);
      case AtChunks(done, pieces) =>
        ChunksFed(s, bytes, rest, m.framing, done, pieces);
        var done', pieces' := ChunksRun(fed, rest, m.framing, done, pieces);
        q := if TakeChunks(fed).stage == Chunk then AtChunks(done', pieces') else AtEnd;
      case AtOpen(done) =>
        OpenFed(s, bytes, rest, m.framing.payload, done);
        q := OpenRuns(fed, rest, m, status, done);
    }
  }

  lemma OpenFed(s: State, bytes: string, rest: string, payload: string, done: string)
    requires ReadsOpen(s, bytes + rest, payload, done)
    ensures var t := s.(pending := s.pending + bytes);
      t.stage == Body && ReadsOpen(t, rest, payload, done) && forall n :: HeadLoop(t, n) == t
  {
    assert done + (s.pending + bytes) + rest == done + s.pending + (bytes + rest);
  }

  lemma OpenRuns(s: State, rest: string, m: Message, status: nat, done: string) returns (q: Position)
    requires m.framing.Open? && s.status == status && ReadsOpen(s, rest, m.framing.payload, done)
    ensures Expects(TakeBody(s), rest, m, status, q)
  {
    hide ReadsHead, ReadsSized, ReadsChunks;
    var done' := done + s.pending;
    KeptWhole(done, s.pending);
    KeptGrows(done, s.pending);
    KeptWhole(done', rest);
    q := if |done'| > MAX_BODY_BYTES then AtEnd else AtOpen(done');
  }

  lemma HeadFed(s: State, bytes: string, rest: string, m: Message, status: nat, lines: seq<string>)
    requires ReadsHead(s, bytes + rest, m, status, lines)
    ensures InHead(s) && ReadsHead(s.(pending := s.pending + bytes), rest, m, status, lines)
  {
    hide FieldsFit, WellFormed, LinesText, BodyText;
    assert s.pending + bytes + rest == s.pending + (bytes + rest);
  }

  lemma SizedFed(s: State, bytes: string, rest: string, payload: string, done: string)
    requires ReadsSized(s, bytes + rest, payload, done)
    ensures var t := s.(pending := s.pending + bytes);
      t.stage == Body && ReadsSized(t, rest, payload, done) && forall n :: HeadLoop(t, n) == t
  {
    assert done + (s.pending + bytes) + rest == done + s.pending + (bytes + rest);
  }

  lemma ChunksFed(s: State, bytes: string, rest: string, framing: Framing, done: string, pieces: seq<Piece>)
    requires ReadsChunks(s, bytes + rest, framing, done, pieces)
    ensures var t := s.(pending := s.pending + bytes);
      framing.Chunks? && t.stage == Chunk && ReadsChunks(t, rest, framing, done, pieces) && forall n :: HeadLoop(t, n) == t
  {
    hide ChunksText, PiecesFit, Joined;
    assert s.pending + bytes + rest == s.pending + (bytes + rest);
  }

  lemma HeadGoesOn(s: State, rest: string, m: Message, status: nat, lines: seq<string>)
    requires ReadsHead(s, rest, m, status, lines) && |s.pending| < |LinesText(lines)|
    ensures rest != "" && InHead(s)
  {
    hide FieldsFit, WellFormed, LinesText, BodyText;
    assert |s.pending + rest| >= |LinesText(lines)|;
  }

  lemma SizedRuns(s: State, rest: string, m: Message, status: nat, done: string) returns (q: Position)
    requires m.framing.Sized? && s.status == status && ReadsSized(s, rest, m.framing.payload, done)
    ensures Expects(TakeBody(s), rest, m, status, q)
  {
    hide TakeBody;
    BodyRuns(s, rest, m.framing.payload, done);
    q := if rest == "" then AtEnd else AtSized(done + s.pending, rest);
  }

  /** The body's first bytes are taken by the call that ended the head. */
  lemma BodyBegins(s: State, rest: string, m: Message, status: nat) returns (q: Position)
    requires PastHead(s, rest, m, status) && ShortSizeLines(m.framing)
    ensures !InHead(s)
    ensures var t := if s.stage == Body then TakeBody(s) else if s.stage == Chunk then TakeChunks(s) else s;
      Expects(t, rest, m, status, q)
  {
    hide TakeBody, TakeChunks, ReadsSized, ReadsChunks, ReadsOpen, ShortFrom, PastHead, BodyText;
    BodyReads(s, rest, m, status);
    if m.framing.Sized? {
      q := SizedRuns(s, rest, m, status, "");
    } else if m.framing.Open? {
      q := OpenRuns(s, rest, m, status, "");
    } else if m.framing.Bodiless? || m.framing.Refused? {
      q := AtEnd;
    } else {
      var done, left := ChunksRun(s, rest, m.framing, "", m.framing.pieces);
      q := if TakeChunks(s).stage == Chunk then AtChunks(done, left) else AtEnd;
    }
  }

  lemma BodyReads(s: State, rest: string, m: Message, status: nat)
    requires PastHead(s, rest, m, status)
    ensures s.status == status
    ensures m.framing.Sized? ==> s.stage == Body && ReadsSized(s, rest, m.framing.payload, "")
    ensures m.framing.Chunks? ==> s.stage == Chunk && ReadsChunks(s, rest, m.framing, "", m.framing.pieces)
    ensures m.framing.Open? ==> s.stage == Body && ReadsOpen(s, rest, m.framing.payload, "")
    ensures m.framing.Bodiless? ==> s.stage == Complete && Received(s, status, "")
    ensures m.framing.Refused? ==> s.stage == Broken && Answered(s, status, m.framing)
  {
    hide ChunksText, Joined, PiecesFit, IsSizeLine;
    match m.framing {
      case Sized(payload) => assert "" + s.pending + rest == payload;
      case Chunks(pieces, _, _) => assert "" + Joined(pieces) == Joined(pieces);
      case Open(payload) => assert "" + s.pending + rest == payload;
      case _ =>
    }
  }

  function Concat(pieces: seq<string>): string {
    if pieces == [] then "" else pieces[0] + Concat(pieces[1..])
  }

  lemma {:induction false} FeedAllExpects(s: State, pieces: seq<string>, m: Message, status: nat, p: Position)
    requires Expects(s, Concat(pieces), m, status, p)
    requires |LinesText(m.lines)| <= MAX_HEADER_BYTES / 2 && ShortSizeLines(m.framing)
    ensures Answered(FeedAll(s, pieces), status, m.framing)
    decreases |pieces|
  {
    hide Feed, ReadsHead, ReadsSized, ReadsChunks, LinesText, Received;
    if p.AtOpen? && pieces == [] {
      assert p.done + s.pending + "" == p.done;
    }
    if pieces != [] {
      var q := FeedExpects(s, pieces[0], Concat(pieces[1..]), m, status, p);
      FeedAllExpects(Feed(s, pieces[0]), pieces[1..], m, status, q);
    }
  }

  // --- the cuts that fail ---------------------------------------------------------------------------------

  /** Where, after done, the first size line that is not short can be cut so that
      it looks endless. */
  function EndlessAt(done: nat, pieces: seq<Piece>, last: string): nat
    requires !ShortFrom(done, pieces, last)
    decreases |pieces|
  {
    if pieces == [] || |pieces[0].sizeLine| > MAX_SIZE_LINE then MAX_SIZE_LINE + 2
    else |pieces[0].sizeLine| + |pieces[0].data| + 4 + EndlessAt(done + |pieces[0].data|, pieces[1..], last)
  }

  lemma {:induction false} EndlessBreaks(s: State, rest: string, framing: Framing, done: string, pieces: seq<Piece>)
    requires ReadsChunks(s, rest, framing, done, pieces) && !ShortFrom(|done|, pieces, framing.last)
    requires |s.pending| == EndlessAt(|done|, pieces, framing.last)
    ensures var t := TakeChunks(s);
      && t.stage == Broken && t.failure == MalformedChunkSize
      && (ChunkSize(framing.last) == None ==> |t.body| < |Joined(framing.pieces)|)
    decreases |s.pending|
  {
    hide FindCrLf, ChunkSize, Kept, ReadsChunks, PiecesFit;
    if pieces == [] || |pieces[0].sizeLine| > MAX_SIZE_LINE {
      EndlessFound(s, rest, framing, done, pieces);
    } else {
      var t := ChunkFollows(s, rest, framing, done, pieces);
      EndlessBreaks(t, rest, framing, done + pieces[0].data, pieces[1..]);
    }
  }

  lemma EndlessFound(s: State, rest: string, framing: Framing, done: string, pieces: seq<Piece>)
    requires ReadsChunks(s, rest, framing, done, pieces) && |s.pending| == MAX_SIZE_LINE + 2
    requires if pieces == [] then |framing.last| > MAX_SIZE_LINE && ChunkSize(framing.last) != None else |pieces[0].sizeLine| > MAX_SIZE_LINE
    ensures FindCrLf(s.pending) == None && s.failure == NoFailure
    ensures pieces != [] ==> |s.body| < |Joined(framing.pieces)|
  {
    hide FindCrLf, ChunkSize;
    if pieces == [] {
      assert s.pending + rest == framing.last + "\r\n" + framing.trailer;
      FindsSizeLine(s.pending, rest, framing.last, framing.trailer);
    } else {
      ChunkArrived(s, rest, framing, done, pieces);
    }
  }

  function CutAt(text: string, n: nat): seq<string>
    requires n <= |text|
  {
    [text[..n], text[n..]]
  }

  lemma CutJoins(text: string, n: nat)
    requires n <= |text|
    ensures Concat(CutAt(text, n)) == text
    ensures FeedAll(FRESH, CutAt(text, n)) == Feed(Feed(FRESH, text[..n]), text[n..])
  {
    hide Feed;
    var cut := CutAt(text, n);
    assert cut[1..] == [text[n..]] && cut[1..][1..] == [];
    assert text[..n] + (text[n..] + "") == text;
    assert Concat(cut[1..]) == text[n..] + Concat([]);
    assert FeedAll(FRESH, cut) == FeedAll(Feed(FRESH, text[..n]), cut[1..]);
    assert FeedAll(Feed(FRESH, text[..n]), cut[1..]) == FeedAll(Feed(Feed(FRESH, text[..n]), text[n..]), []);
  }

  lemma FreshReads(m: Message, status: nat, n: nat)
    requires WellFormed(m, status) && n <= |MessageText(m)|
    ensures var text := MessageText(m);
      && ReadsHead(FRESH.(pending := text[..n]), text[n..], m, status, m.lines)
      && LinesText(m.lines) != ""
  {
    hide FieldsFit, StatusOf, BodyText;
    var text := MessageText(m);
    assert text[..n] + text[n..] == text;
  }

  /** A head of more than half the limit is refused when only its last byte comes late. */
  lemma LongHeadFails(m: Message, status: nat) returns (pieces: seq<string>)
    requires WellFormed(m, status) && |LinesText(m.lines)| > MAX_HEADER_BYTES / 2
    ensures Concat(pieces) == MessageText(m) && TooLong(FeedAll(FRESH, pieces))
  {
    hide ReadsHead, HeadLoop, TakeBody, TakeChunks, LinesText, BodyText, WellFormed, Payload;
    var text, head := MessageText(m), |LinesText(m.lines)|;
    var n: nat := head - 1;
    pieces := CutAt(text, n);
    CutJoins(text, n);
    FreshReads(m, status, n);
    var s := FRESH.(pending := text[..n]);
    assert FRESH.pending + text[..n] == text[..n];
    var left := HeadRuns(s, n, text[n..], m, status, m.lines, 0);
    var t := HeadLoop(s, n);
    if InHead(t) {
      HeadFed(t, text[n..], "", m, status, left) by {
        assert text[n..] + "" == text[n..];
      }
      var u := t.(pending := t.pending + text[n..]);
      var left' := HeadRuns(u, |text[n..]|, "", m, status, left, n);
      var v := HeadLoop(u, |text[n..]|);
      if InHead(v) {
        HeadGoesOn(v, "", m, status, left');
        assert false;
      }
    } else if !TooLong(t) {
      HeadCannotEnd(t, text[n..], m, status);
      assert false;
    }
  }

  lemma HeadCannotEnd(s: State, rest: string, m: Message, status: nat)
    requires PastHead(s, rest, m, status)
    ensures |rest| <= |BodyText(m.framing)| && !InHead(s)
    ensures (m.framing.Chunks? ==> s.stage == Chunk) && (s.stage == Broken ==> m.framing.Refused?)
  {
    hide BodyText;
    assert |s.pending + rest| == |s.pending| + |rest|;
  }

  /** A size line that is too long is refused when its end comes late. */
  lemma LongSizeLineFails(m: Message, status: nat) returns (pieces: seq<string>)
    requires WellFormed(m, status) && !ShortSizeLines(m.framing)
    ensures Concat(pieces) == MessageText(m) && m.framing.Chunks?
    ensures var s := FeedAll(FRESH, pieces); s.stage == Broken && (s.failure == MalformedChunkSize || TooLong(s))
    ensures !Answered(FeedAll(FRESH, pieces), status, m.framing)
  {
    hide ReadsHead, HeadLoop, TakeBody, TakeChunks, LinesText, BodyText, WellFormed, Payload, ChunksText, PiecesFit,
      EndlessAt, ShortFrom, Joined;
    var text, head := MessageText(m), |LinesText(m.lines)|;
    EndlessWithin(m);
    var n := head + EndlessAt(0, m.framing.pieces, m.framing.last);
    pieces := CutAt(text, n);
    CutJoins(text, n);
    FreshReads(m, status, n);
    var s := FRESH.(pending := text[..n]);
    assert FRESH.pending + text[..n] == text[..n];
    var left := HeadRuns(s, n, text[n..], m, status, m.lines, 0);
    var t := HeadLoop(s, n);
    if InHead(t) {
      assert false;
    } else if t.stage != Broken {
      HeadCannotEnd(t, text[n..], m, status);
      BodyCame(t, text, n, m, status);
      EndlessBreaks(t, text[n..], m.framing, "", m.framing.pieces);
    }
  }

  lemma BodyCame(s: State, text: string, n: nat, m: Message, status: nat)
    requires text == MessageText(m) && |LinesText(m.lines)| <= n <= |text| && m.framing.Chunks?
    requires PastHead(s, text[n..], m, status)
    ensures |s.pending| == n - |LinesText(m.lines)|
    ensures s.stage == Chunk && ReadsChunks(s, text[n..], m.framing, "", m.framing.pieces)
  {
    hide LinesText, ChunksText, PiecesFit, Joined, IsSizeLine;
    assert |s.pending + text[n..]| == |BodyText(m.framing)|;
    assert "" + Joined(m.framing.pieces) == Joined(m.framing.pieces);
  }

  /** Every way of cutting a response into pieces ends with its status and the
      part of its payload that is kept, when its head takes at most half the
      header limit and its size lines are short. */
  lemma EveryCutCompletes(m: Message, status: nat, pieces: seq<string>)
    requires WellFormed(m, status) && Concat(pieces) == MessageText(m)
    requires |LinesText(m.lines)| <= MAX_HEADER_BYTES / 2 && ShortSizeLines(m.framing)
    ensures Answered(FeedAll(FRESH, pieces), status, m.framing)
  {
    hide StatusOf, FieldsFit, Received, FeedAll, BodyText;
    assert ReadsHead(FRESH, MessageText(m), m, status, m.lines) by {
      assert "" + MessageText(m) == MessageText(m);
    }
    assert LinesText(m.lines) == m.lines[0] + "\n" + LinesText(m.lines[1..]);
    FeedAllExpects(FRESH, pieces, m, status, AtLines(m.lines));
  }

  lemma EndlessWithin(m: Message)
    requires !ShortSizeLines(m.framing)
    ensures m.framing.Chunks? && |LinesText(m.lines)| + EndlessAt(0, m.framing.pieces, m.framing.last) <= |MessageText(m)|
  {
    hide EndlessAt, LinesText, ChunksText;
    EndlessFits(0, m.framing.pieces, m.framing.last, m.framing.trailer);
  }

  /** And those conditions are exact: otherwise some cut ends another way. */
  lemma EveryCutCompletesIff(m: Message, status: nat)
    requires WellFormed(m, status)
    ensures (forall pieces :: Concat(pieces) == MessageText(m) ==> Answered(FeedAll(FRESH, pieces), status, m.framing))
       <==> |LinesText(m.lines)| <= MAX_HEADER_BYTES / 2 && ShortSizeLines(m.framing)
  {
    hide WellFormed, FeedAll, Concat, LinesText, Payload, ShortSizeLines, MessageText, Kept;
    if |LinesText(m.lines)| <= MAX_HEADER_BYTES / 2 && ShortSizeLines(m.framing) {
      forall pieces | Concat(pieces) == MessageText(m)
        ensures Answered(FeedAll(FRESH, pieces), status, m.framing)
      {
        EveryCutCompletes(m, status, pieces);
      }
    } else {
      var pieces;
      if |LinesText(m.lines)| > MAX_HEADER_BYTES / 2 {
        pieces := LongHeadFails(m, status);
        TooLongUnanswered(FeedAll(FRESH, pieces), m, status);
      } else {
        pieces := LongSizeLineFails(m, status);
      }
      assert !Answered(FeedAll(FRESH, pieces), status, m.framing);
    }
  }

  lemma {:induction false} EndlessFits(done: nat, pieces: seq<Piece>, last: string, trailer: string)
    requires !ShortFrom(done, pieces, last)
    ensures EndlessAt(done, pieces, last) <= |ChunksText(pieces, last, trailer)|
    decreases |pieces|
  {
    if pieces != [] && |pieces[0].sizeLine| <= MAX_SIZE_LINE {
      EndlessFits(done + |pieces[0].data|, pieces[1..], last, trailer);
    }
  }
}
