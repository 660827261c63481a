/**
 ResponseParser of firmware/src/net/HttpFetch.cpp: bytes in, a response out. Each
 method does to the object's fields what the function of HttpResponse says.
 */
module HttpParser {
  import opened Basics
  import opened HttpResponse
  import opened Numerals
  import C = HttpCuts

  method Trim(text: string) returns (t: string)
    ensures t == Trimmed(text)
  {
    t := text;
    while t != "" && (t[0] == ' ' || t[0] == '\t')
      invariant TrimFront(t) == TrimFront(text)
      decreases |t|
    {
      t := t[1..];
    }
    while t != "" && (t[|t| - 1] == ' ' || t[|t| - 1] == '\t' || t[|t| - 1] == '\r')
      invariant TrimBack(t) == Trimmed(text)
      decreases |t|
    {
      t := t[..|t| - 1];
    }
  }

  method EqualsIgnoringCase(a: string, b: string) returns (same: bool)
    ensures same == SameIgnoringCase(a, b)
  {
    if |a| != |b| {
      return false;
    }
    for i := 0 to |a|
      invariant forall j :: 0 <= j < i ==> Lower(a[j]) == Lower(b[j])
    {
      if Lower(a[i]) != Lower(b[i]) {
        return false;
      }
    }
    return true;
  }

  lemma {:induction false} HexOfPrefix(s: string, n: nat)
    requires n <= |s|
    ensures HexOf(s[..n]) == None ==> HexOf(s) == None
    decreases |s| - n
  {
    if n < |s| {
      assert s[..n + 1][..n] == s[..n];
      HexOfPrefix(s, n + 1);
    } else {
      assert s[..n] == s;
    }
  }

  method ReadChunkSize(line: string) returns (size: Option<nat>)
    ensures size == ChunkSize(line)
  {
    var semi := Find(line, ';');
    var header := Trim(if semi == None then line else line[..semi.value]);
    if header == "" || |header| > 8 {
      return None;
    }
    var n := 0;
    for i := 0 to |header|
      invariant HexOf(header[..i]) == Some(n)
    {
      assert header[..i + 1][..i] == header[..i];
      var value := HexValue(header[i]);
      if value == None {
        HexOfPrefix(header, i + 1);
        return None;
      }
      n := n * 16 + value.value;
    }
    assert header[..|header|] == header;
    return Some(n);
  }

  class ResponseParser {
    var stage: Stage
    var pending: string
    var failure: Failure
    var status: nat
    var body: string
    var complete: bool
    var chunked: bool
    var truncated: bool
    var headerBytes: nat
    var contentLength: int
    var bodyTaken: nat

    constructor ()
      ensures Now() == FRESH
    {
      stage, pending, failure := Status, "", NoFailure;
      status, body, complete, chunked, truncated := 0, "", false, false, false;
      headerBytes, contentLength, bodyTaken := 0, -1, 0;
    }

    method Reset()
      modifies this
      ensures Now() == FRESH
    {
      stage, pending, failure := Status, "", NoFailure;
      status, body, complete, chunked, truncated := 0, "", false, false, false;
      headerBytes, contentLength, bodyTaken := 0, -1, 0;
    }

    function Now(): State
      reads this
    {
      State(stage, pending, failure, status, body, complete, chunked, truncated, headerBytes, contentLength, bodyTaken)
    }

    predicate Done()
      reads this
    {
      stage == Complete
    }

    method Refuse(why: Failure) returns (ok: bool)
      modifies this
      ensures !ok && Now() == Fail(old(Now()), why)
    {
      stage := Broken;
      if failure == NoFailure {
        failure := why;
      }
      return false;
    }

    method ConsumeStatusLine(line: string) returns (ok: bool)
      requires stage == Status
      modifies this
      ensures Now() == TakeStatusLine(old(Now()), line) && ok == (stage != Broken)
    {
      var http := false;
      if |line| >= 12 {
        http := EqualsIgnoringCase(line[..5], "http/");
      }
      if !http {
        ok := Refuse(NotHttp);
        return;
      }
      var space := Find(line, ' ');
      if space == None || space.value + 4 > |line| {
        ok := Refuse(MalformedStatusLine);
        return;
      }
      var code := line[space.value + 1..space.value + 4];
      var n := 0;
      for i := 0 to 3
        invariant AllDigits(code[..i]) && n == NatOf(code[..i])
        invariant Now() == old(Now())
      {
        assert code[..i + 1][..i] == code[..i];
        if !IsDigit(code[i]) {
          ok := Refuse(MalformedStatusCode);
          return;
        }
        n := n * 10 + DigitValue(code[i]);
      }
      assert code[..3] == code;
      status := n;
      stage := Headers;
      return true;
    }

    method ReadLength(value: string) returns (why: Failure, length: nat)
      ensures (why, length) == LengthOf(value)
    {
      if value == "" {
        return EmptyContentLength, 0;
      }
      length := 0;
      for i := 0 to |value|
        invariant LengthFrom(value, i, length) == LengthFrom(value, 0, 0)
      {
        if !IsDigit(value[i]) {
          return MalformedContentLength, 0;
        }
        length := length * 10 + DigitValue(value[i]);
        if length > MAX_CONTENT_LENGTH {
          return AbsurdContentLength, 0;
        }
      }
      return NoFailure, length;
    }

    method ConsumeHeader(line: string) returns (ok: bool)
      requires stage == Headers
      modifies this
      ensures Now() == TakeHeader(old(Now()), line) && ok == (stage != Broken)
    {
      hide TakeField;
      if line == "" || line == "\r" {
        if status == 204 || status == 304 {
          stage := Complete;
          complete := true;
          return true;
        }
        stage := if chunked then Chunk else Body;
        return true;
      }
      ok := ConsumeField(line);
    }

    /** A header line that is not blank. */
    method ConsumeField(line: string) returns (ok: bool)
      requires stage == Headers
      modifies this
      ensures Now() == TakeField(old(Now()), line) && ok == (stage != Broken)
    {
      hide LengthOf, Trimmed, Find, SameIgnoringCase;
      var colon := Find(line, ':');
      if colon == None {
        ok := Refuse(MalformedHeader);
        return;
      }
      var name := Trim(line[..colon.value]);
      var value := Trim(line[colon.value + 1..]);
      var isLength := EqualsIgnoringCase(name, "content-length");
      var isEncoding := EqualsIgnoringCase(name, "transfer-encoding");
      if isLength {
        var why, length := ReadLength(value);
        if why != NoFailure {
          ok := Refuse(why);
          return;
        }
        contentLength := length;
      } else if isEncoding {
        var isChunked := EqualsIgnoringCase(value, "chunked");
        if isChunked {
          chunked := true;
          contentLength := -1;
        }
      }
      return true;
    }

    /** Keeps what is pending as far as there is room. */
    method KeepBody()
      modifies this
      ensures Now() == BodyKept(old(Now()))
    {
      var room := if MAX_BODY_BYTES > |body| then MAX_BODY_BYTES - |body| else 0;
      var take := if |pending| < room then |pending| else room;
      body := body + pending[..take];
      if take < |pending| {
        truncated := true;
      }
      bodyTaken := bodyTaken + |pending|;
      pending := "";
    }

    method ConsumeBody()
      requires stage == Body
      modifies this
      ensures Now() == TakeBody(old(Now())) && stage != Broken
    {
      hide Room;
      KeepBody();
      if contentLength >= 0 && bodyTaken >= contentLength {
        stage := Complete;
        complete := true;
      } else if truncated && contentLength < 0 {
        stage := Complete;
        complete := true;
      }
    }

    /** Keep the chunk after the size line that ends at eol, as far as there is room. */
    method AddChunk(eol: nat, size: nat)
      requires |pending| >= eol + 2 + size + 2
      modifies this
      ensures Now() == ChunkAdded(old(Now()), eol, size)
    {
      var room := if MAX_BODY_BYTES > |body| then MAX_BODY_BYTES - |body| else 0;
      var take := if size < room then size else room;
      body := body + pending[eol + 2..eol + 2 + take];
      if take < size {
        truncated := true;
      }
      pending := pending[eol + 2 + size + 2..];
    }

    method ConsumeChunks() returns (ok: bool)
      requires stage == Chunk
      modifies this
      ensures Now() == TakeChunks(old(Now())) && ok == (stage != Broken)
    {
      hide FindCrLf, ChunkSize, TakeChunks, ChunkAdded;
      while true
        invariant stage == Chunk && TakeChunks(Now()) == TakeChunks(old(Now()))
        decreases |pending|
      {
        var eol := FindCrLf(pending);
        if eol == None {
          C.ChunkUnended(Now());
          if |pending| > 64 {
            ok := Refuse(MalformedChunkSize);
            return;
          }
          return true;
        }
        var found := ReadChunkSize(pending[..eol.value]);
        if found == None {
          C.ChunkRefused(Now(), eol.value);
          ok := Refuse(MalformedChunkSize);
          return;
        }
        var size := found.value;
        C.ChunkStep(Now(), eol.value, size);
        if size == 0 {
          stage, complete, pending := Complete, true, "";
          return true;
        }
        if |pending| < eol.value + 2 + size + 2 {
          return true;
        }
        AddChunk(eol.value, size);
        if truncated {
          stage, complete, pending := Complete, true, "";
          return true;
        }
      }
    }

    /** The part of feed's loop that has found a line. */
    method ConsumeLine(eol: nat) returns (ok: bool)
      requires stage == Status || stage == Headers
      requires Find(pending, '\n') == Some(eol) && headerBytes + eol + 1 <= MAX_HEADER_BYTES
      modifies this
      ensures var line := old(pending)[..eol];
        Now() == C.AfterLine(old(Now()).(headerBytes := old(headerBytes) + eol + 1), line)
      ensures ok == (stage != Broken) && pending == old(pending)[eol + 1..]
    {
      hide TakeStatusLine, TakeHeader, Stripped, Find;
      var line := pending[..eol];
      var rest := pending[eol + 1..];
      headerBytes := headerBytes + eol + 1;
      if stage == Status {
        ok := ConsumeStatusLine(Stripped(line));
      } else {
        ok := ConsumeHeader(Stripped(line));
      }
      pending := rest;
    }

    /** The turn of feed's loop that finds no line. */
    method EndPiece(fed: nat) returns (ok: bool)
      requires InHead(Now()) && Find(pending, '\n') == None
      modifies this
      ensures Now() == HeadLoop(old(Now()), fed) && ok == (stage != Broken)
    {
      hide HeadLoop, Find;
      C.HeadLoopEnd(Now(), fed);
      headerBytes := headerBytes + fed;
      if headerBytes > MAX_HEADER_BYTES {
        ok := Refuse(HeadersTooLong);
        return;
      }
      return true;
    }

    /** The turn of feed's loop that finds one. */
    method NextLine(eol: nat, ghost fed: nat) returns (ok: bool)
      requires InHead(Now()) && Find(pending, '\n') == Some(eol)
      modifies this
      ensures ok == (stage != Broken) && (ok ==> |pending| < |old(pending)|)
      ensures HeadLoop(old(Now()), fed) == if ok then HeadLoop(Now(), fed) else Now()
    {
      hide HeadLoop, C.AfterLine, Find;
      C.HeadLoopLine(Now(), fed, pending[..eol]);
      if headerBytes + eol + 1 > MAX_HEADER_BYTES {
        headerBytes := headerBytes + eol + 1;
        ok := Refuse(HeadersTooLong);
        return;
      }
      ok := ConsumeLine(eol);
      HeadBehind(Now(), fed);
    }

    /** The loop of feed. */
    method ConsumeHead(fed: nat) returns (ok: bool)
      requires stage != Broken
      modifies this
      ensures Now() == HeadLoop(old(Now()), fed) && ok == (stage != Broken)
    {
      hide HeadLoop, Find;
      while stage == Status || stage == Headers
        invariant stage != Broken && HeadLoop(Now(), fed) == HeadLoop(old(Now()), fed)
        decreases |pending|
      {
        var eol := Find(pending, '\n');
        if eol == None {
          ok := EndPiece(fed);
          return;
        }
        ok := NextLine(eol.value, fed);
        if !ok {
          return false;
        }
      }
      HeadBehind(Now(), fed);
      return true;
    }

    /** False when the response is malformed, not when it is finished. */
    method Feed(bytes: string) returns (ok: bool)
      modifies this
      ensures Now() == HttpResponse.Feed(old(Now()), bytes) && ok == (stage != Broken)
    {
      hide HeadLoop, TakeBody, TakeChunks;
      if stage == Broken {
        return false;
      }
      if stage == Complete {
        return true;
      }
      pending := pending + bytes;
      ok := ConsumeHead(|bytes|);
      if !ok {
        return false;
      }
      if stage == Body {
        ConsumeBody();
        return true;
      }
      if stage == Chunk {
        ok := ConsumeChunks();
        return;
      }
      return true;
    }
  }

  lemma HeadBehind(s: State, fed: nat)
    ensures !InHead(s) ==> HeadLoop(s, fed) == s
  {
  }
}
