/** Which texts a document is read from: soundness and completeness together. */
module JsonAcceptance {
  import opened Basics
  import opened JsonGrammar
  import opened JsonReader
  import opened JsonSoundness
  import opened JsonCompleteness

  /** A JSON text: one value with white space around it. */
  datatype Document = Document(before: string, value: Value, after: string)

  function DocumentText(d: Document): string {
    d.before + Text(d.value) + d.after
  }

  /** The grammar of RFC 8259, and the limits a reader was given. */
  ghost predicate IsJson(d: Document) {
    Spaces(d.before) && WellFormed(d.value) && Spaces(d.after)
  }

  ghost predicate WithinLimits(d: Document, maxDepth: int, capacity: int, children: nat := MAX_CHILDREN) {
    Narrow(d.value, children) && (Depth(d.value) > 0 ==> Depth(d.value) <= maxDepth) && Size(d.value) <= capacity
  }

  function ReadDocument(x: Input): (r: Read<Document>)
    ensures r.Ok? ==> r.pos == |x.text|
    ensures r.Fail? ==> r.at <= |x.text| && r.error != NoError
  {
    match ReadValue(x, 0, 0, 0)
    case Fail(error, where) => Fail(error, where)
    case Ok(v, p, n) =>
      var q := SkipSpaces(x.text, p);
      if q != |x.text| then Fail(TrailingContent, q)
      else Ok(Document(v.before, v.value, x.text[p..q]), q, n)
  }

  /** What is read is JSON, spells the text, and is within the limits. */
  lemma DocumentSound(x: Input)
    requires ReadDocument(x).Ok?
    ensures var r := ReadDocument(x);
      && IsJson(r.value) && DocumentText(r.value) == x.text
      && WithinLimits(r.value, x.maxDepth, x.capacity, x.children) && r.count == Size(r.value.value)
  {
    hide At, ReadBare, Text, Narrow, Depth, Size, WellFormed;
    var v := ReadValue(x, 0, 0, 0);
    ValueSound(x, 0, 0, 0);
    SpacesSound(x.text, v.pos);
    AtSlice(x.text, v.pos, |x.text|);
    var d := ReadDocument(x).value;
    Bracketed(x.text, 0, d.before, Text(d.value), d.after);
    SliceAt(x.text, 0, DocumentText(d));
    assert x.text[0..|x.text|] == x.text;
  }

  /** Every JSON text within the limits is read, as the document that spells it. */
  lemma DocumentComplete(x: Input, d: Document)
    requires IsJson(d) && DocumentText(d) == x.text && WithinLimits(d, x.maxDepth, x.capacity, x.children)
    ensures ReadDocument(x) == Ok(d, |x.text|, Size(d.value))
  {
    hide At, ReadBare, Text, Narrow, Depth, Size, WellFormed, SkipSpaces;
    var at, p := |d.before|, |d.before| + |Text(d.value)|;
    AtSlice(x.text, 0, |x.text|);
    assert x.text[0..|x.text|] == x.text;
    AtConcat(x.text, 0, d.before + Text(d.value), d.after);
    AtConcat(x.text, 0, d.before, Text(d.value));
    SpacesComplete(x.text, p, d.after);
    if p < |x.text| {
      CharStands(x.text, p, d.after, 0);
    }
    BareComplete(x, at, 0, 0, d.value);
    SpacesComplete(x.text, 0, d.before);
    SliceAt(x.text, 0, d.before);
    SliceAt(x.text, p, d.after);
  }

  /** Acceptance is membership in the grammar within the limits. */
  lemma AcceptedIffJson(text: string, maxDepth: int, capacity: int)
    ensures ReadDocument(Input(text, maxDepth, capacity)).Ok?
       <==> exists d :: IsJson(d) && DocumentText(d) == text && WithinLimits(d, maxDepth, capacity)
  {
    var x := Input(text, maxDepth, capacity);
    if ReadDocument(x).Ok? {
      DocumentSound(x);
    }
    forall d | IsJson(d) && DocumentText(d) == text && WithinLimits(d, maxDepth, capacity)
      ensures ReadDocument(x).Ok?
    {
      DocumentComplete(x, d);
    }
  }

  /** No text spells two documents. */
  lemma Unambiguous(d: Document, e: Document)
    requires IsJson(d) && IsJson(e) && DocumentText(d) == DocumentText(e)
    ensures d == e
  {
    hide Narrow, Depth, Size, Width, DocumentText, IsJson, ReadDocument;
    var width := Max(Width(d.value), Width(e.value));
    var x := Input(DocumentText(d), Max(Depth(d.value), Depth(e.value)), Max(Size(d.value), Size(e.value)), width);
    WideEnough(d.value, width);
    WideEnough(e.value, width);
    DocumentComplete(x, d);
    DocumentComplete(x, e);
  }
}
