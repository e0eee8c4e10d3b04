/**
 * The request-body decoder that the handlers repeat inline: a branch on the content type,
 * a URL-encoded or JSON body handed to the library, and a hand-written multipart parser
 * that splits the body on `--boundary`, trims each chunk, drops the disposition prefix,
 * splits on runs of CR/LF and keeps a field only when exactly a name line and a value
 * line remain.
 */
module Forms {
  import opened Wrappers
  import opened JsStrings
  import opened Http

  const UrlEncoded := "application/x-www-form-urlencoded"
  const Multipart := "multipart/form-data"
  const Json := "application/json"
  const Disposition := "Content-Disposition: form-data; "

  /** The first index at or after `from` holding `c`, or `|s|`. */
  function Find(s: string, c: char, from: nat): (k: nat)
    requires from <= |s|
    decreases |s| - from
    ensures from <= k <= |s|
    ensures forall i :: from <= i < k ==> s[i] != c
    ensures k < |s| ==> s[k] == c
  {
    if from == |s| || s[from] == c then from else Find(s, c, from + 1)
  }

  // ---------------------------------------------------------------------------
  // The boundary: `/boundary=(?:"([^"]+)"|([^;]+))/`, then `match[1] ?? match[2]`

  /** The capture of `(?:"([^"]+)"|([^;]+))` at index `j`: a quoted run of at least one
      non-quote character when there is one, or else a run of at least one character up
      to the next semicolon. */
  function BoundaryValueAt(s: string, j: nat): (r: Option<string>)
    requires j <= |s|
  {
    var close := if j < |s| && s[j] == '"' then Find(s, '"', j + 1) else j;
    if j + 1 < close < |s| then Some(s[j + 1..close])
    else
      var end := Find(s, ';', j);
      if j < end then Some(s[j..end]) else None
  }

  /** The leftmost match at or after `from`. A captured boundary is never empty. */
  function BoundaryFrom(s: string, from: nat): (r: Option<string>)
    decreases |s| - from
    ensures r.Some? ==> r.value != ""
  {
    match IndexFrom(s, "boundary=", from)
    case None => None
    case Some(i) =>
      match BoundaryValueAt(s, i + 9)
      case Some(b) => Some(b)
      case None => BoundaryFrom(s, i + 1)
  }

  function BoundaryOf(contentType: string): Option<string> {
    BoundaryFrom(contentType, 0)
  }

  /** The prefix a browser sends before the boundary. */
  const BoundaryPrefix := "multipart/form-data; boundary="

  /** No `boundary=` starts inside the media type and its separator. */
  lemma BoundaryPrefixFirst(rest: string)
    ensures IndexFrom(BoundaryPrefix + rest, "boundary=", 0) == Some(21)
  {
    var s := BoundaryPrefix + rest;
    assert OccursAt(s, "boundary=", 21) by {
      assert s[21..30] == BoundaryPrefix[21..30];
    }
    forall j: nat | j < 21 ensures !OccursAt(s, "boundary=", j) {
      assert s[j] == BoundaryPrefix[j];
      assert s[j] != 'b';
      assert j + 9 <= |s| ==> s[j..j + 9][0] == s[j];
    }
    IndexFromIs(s, "boundary=", 0, 21);
  }

  /** An unquoted boundary is read back as sent. */
  lemma BoundaryOfUnquoted(b: string)
    requires b != "" && b[0] != '"' && forall i :: 0 <= i < |b| ==> b[i] != ';'
    ensures BoundaryOf(BoundaryPrefix + b) == Some(b)
  {
    var s := BoundaryPrefix + b;
    BoundaryPrefixFirst(b);
    assert s[30] == b[0];
    assert forall i :: 30 <= i < |s| ==> s[i] == b[i - 30];
    var end := Find(s, ';', 30);
    assert end == |s|;
    assert s[30..end] == b;
  }

  /** A quoted boundary is read back without its quotes. */
  lemma BoundaryOfQuoted(b: string)
    requires b != "" && forall i :: 0 <= i < |b| ==> b[i] != '"'
    ensures BoundaryOf(BoundaryPrefix + "\"" + b + "\"") == Some(b)
  {
    var q := "\"" + b + "\"";
    var s := BoundaryPrefix + q;
    assert s == BoundaryPrefix + "\"" + b + "\"";
    BoundaryPrefixFirst(q);
    assert s[30] == '"';
    assert forall i :: 31 <= i < |s| - 1 ==> s[i] == b[i - 31];
    assert s[|s| - 1] == '"';
    var close := Find(s, '"', 31);
    assert close == |s| - 1;
    assert s[31..close] == b;
  }

  // ---------------------------------------------------------------------------
  // The field name: `/name="(.+)"/.exec(line)?.[1]`

  /** The first line terminator at or after `from`, or `|s|`. */
  function LineEnd(s: string, from: nat): (k: nat)
    requires from <= |s|
    decreases |s| - from
    ensures from <= k <= |s|
    ensures forall i :: from <= i < k ==> !IsLineTerminator(s[i])
    ensures k < |s| ==> IsLineTerminator(s[k])
  {
    if from == |s| || IsLineTerminator(s[from]) then from else LineEnd(s, from + 1)
  }

  /** The last index in `[lo, hi)` holding a quote. */
  function LastQuote(s: string, lo: nat, hi: nat): (q: Option<nat>)
    requires lo <= hi <= |s|
    decreases hi - lo
    ensures q.Some? ==> lo <= q.value < hi && s[q.value] == '"'
    ensures q.Some? ==> forall i :: q.value < i < hi ==> s[i] != '"'
    ensures q.None? ==> forall i :: lo <= i < hi ==> s[i] != '"'
  {
    if lo == hi then None
    else if s[hi - 1] == '"' then Some(hi - 1)
    else LastQuote(s, lo, hi - 1)
  }

  /** The leftmost match at or after `from`: the greedy `.+` runs to the end of the line and
      gives back characters until a quote follows, so the capture ends at the last quote
      of the line. A captured name is never empty and never spans a line. */
  function NameFrom(s: string, from: nat): (r: Option<string>)
    decreases |s| - from
    ensures r.Some? ==> r.value != "" && NoLineTerminator(r.value)
  {
    match IndexFrom(s, "name=\"", from)
    case None => None
    case Some(i) =>
      var start := i + 6;
      var end := LineEnd(s, start);
      var q := if start < end then LastQuote(s, start + 1, end) else None;
      if q.Some? then
        assert forall k :: 0 <= k < q.value - start ==> s[start..q.value][k] == s[start + k];
        Some(s[start..q.value])
      else NameFrom(s, i + 1)
  }

  function NameOf(line: string): Option<string> {
    NameFrom(line, 0)
  }

  /** A name line is read back as written. */
  lemma NameOfRoundTrip(n: string)
    requires n != "" && NoLineTerminator(n)
    ensures NameOf(NameLine(n)) == Some(n)
  {
    var s := NameLine(n);
    assert OccursAt(s, "name=\"", 0) by { assert s[0..6] == "name=\""; }
    IndexFromIs(s, "name=\"", 0, 0);
    assert forall i :: 6 <= i < |s| - 1 ==> s[i] == n[i - 6];
    assert s[|s| - 1] == '"';
    assert LineEnd(s, 6) == |s|;
    assert LastQuote(s, 7, |s|) == Some(|s| - 1);
    assert s[6..|s| - 1] == n;
  }

  // ---------------------------------------------------------------------------
  // Fields

  /** The field one chunk contributes, if any. */
  function PartField(chunk: string): Option<(string, string)> {
    var part := Trim(chunk);
    if part == "" then None
    else
      var val := SplitBreaks(ReplaceFirst(part, Disposition, ""));
      if |val| != 2 then None
      else match NameOf(val[0])
        case None => None
        case Some(name) => if val[1] != "" then Some((name, val[1])) else None
  }

  /** The record built from a sequence of optional fields, left to right; a later field
      overwrites an earlier one of the same name. */
  function Gather(fs: seq<Option<(string, string)>>): map<string, string> {
    if fs == [] then map[]
    else
      var m := Gather(fs[..|fs| - 1]);
      match fs[|fs| - 1]
      case None => m
      case Some(f) => m[f.0 := f.1]
  }

  /** The field of each chunk. */
  function ChunkFields(parts: seq<string>): (fs: seq<Option<(string, string)>>)
    ensures |fs| == |parts| && forall i :: 0 <= i < |parts| ==> fs[i] == PartField(parts[i])
  {
    seq(|parts|, i requires 0 <= i < |parts| => PartField(parts[i]))
  }

  /** The fields of a sequence of chunks. */
  function Collect(parts: seq<string>): map<string, string> {
    Gather(ChunkFields(parts))
  }

  /** A name is gathered exactly when some field has it. */
  lemma {:induction false} GatherDefinedIff(fs: seq<Option<(string, string)>>, k: string)
    ensures k in Gather(fs) <==> exists i :: 0 <= i < |fs| && fs[i].Some? && fs[i].value.0 == k
  {
    if fs != [] {
      var init := fs[..|fs| - 1];
      GatherDefinedIff(init, k);
      assert forall i :: 0 <= i < |init| ==> init[i] == fs[i];
    }
  }

  /** The value gathered for a name is the one from the last field with that name. */
  lemma {:induction false} GatherLastWins(fs: seq<Option<(string, string)>>, i: nat, k: string, v: string)
    requires i < |fs| && fs[i] == Some((k, v))
    requires forall j :: i < j < |fs| ==> fs[j].None? || fs[j].value.0 != k
    ensures k in Gather(fs) && Gather(fs)[k] == v
  {
    var init := fs[..|fs| - 1];
    if i < |fs| - 1 {
      assert init[i] == fs[i];
      assert forall j :: i < j < |init| ==> init[j] == fs[j];
      GatherLastWins(init, i, k, v);
    }
  }

  /** A chunk's field, when it has one, is named `k`. */
  predicate Defines(chunk: string, k: string) {
    PartField(chunk).Some? && PartField(chunk).value.0 == k
  }

  /** A name is collected exactly when some chunk defines it. */
  lemma CollectDefinedIff(parts: seq<string>, k: string)
    ensures k in Collect(parts) <==> exists i :: 0 <= i < |parts| && Defines(parts[i], k)
  {
    GatherDefinedIff(ChunkFields(parts), k);
  }

  /** The value collected for a name is the one from the last chunk that defines it. */
  lemma CollectLastWins(parts: seq<string>, i: nat, k: string, v: string)
    requires i < |parts| && PartField(parts[i]) == Some((k, v))
    requires forall j :: i < j < |parts| ==> !Defines(parts[j], k)
    ensures k in Collect(parts) && Collect(parts)[k] == v
  {
    GatherLastWins(ChunkFields(parts), i, k, v);
  }

  /** One more chunk adds its field on top of the record so far. */
  lemma CollectSnoc(parts: seq<string>, chunk: string)
    ensures Collect(parts + [chunk]) ==
      match PartField(chunk)
      case None => Collect(parts)
      case Some(f) => Collect(parts)[f.0 := f.1]
  {
    var fs := ChunkFields(parts + [chunk]);
    assert fs[..|parts|] == ChunkFields(parts);
  }

  /** The fields of a multipart body: every piece of the split but the last. */
  function MultipartFields(body: string, boundary: string): map<string, string>
    requires boundary != ""
  {
    var parts := Split(body, "--" + boundary);
    Collect(parts[..|parts| - 1])
  }

  /** The multipart loop, filling the record field by field. */
  method ParseMultipart(body: string, boundary: string) returns (data: map<string, string>)
    requires boundary != ""
    ensures data == MultipartFields(body, boundary)
  {
    var parts := Split(body, "--" + boundary);
    data := map[];
    var i := 0;
    while i < |parts| - 1
      invariant 0 <= i <= |parts| - 1
      invariant data == Collect(parts[..i])
    {
      assert parts[..i + 1] == parts[..i] + [parts[i]];
      CollectSnoc(parts[..i], parts[i]);
      var part := Trim(parts[i]);
      if part != "" {
        var val := SplitBreaks(ReplaceFirst(part, Disposition, ""));
        if |val| == 2 {
          var propName := NameOf(val[0]);
          var propValue := val[1];
          if propName.Some? && propValue != "" {
            data := data[propName.value := propValue];
          }
        }
      }
      i := i + 1;
    }
  }

  /** The name line of a well-formed chunk. */
  function NameLine(name: string): string {
    "name=\"" + name + "\""
  }

  /** What follows the disposition prefix in a well-formed chunk. */
  function FieldBody(name: string, value: string): string {
    NameLine(name) + "\r\n\r\n" + value
  }

  /** A chunk as a browser writes it, between two delimiters. */
  function FieldChunk(name: string, value: string): string {
    "\r\n" + Disposition + FieldBody(name, value) + "\r\n"
  }

  /** Trimming a well-formed chunk leaves the disposition, the name line and the value. */
  lemma TrimFieldChunk(name: string, value: string)
    requires value != "" && !IsSpace(value[|value| - 1])
    ensures Trim(FieldChunk(name, value)) == Disposition + FieldBody(name, value)
  {
    var x := Disposition + FieldBody(name, value);
    assert FieldChunk(name, value) == "\r\n" + x + "\r\n";
    assert x[0] == 'C';
    assert x[|x| - 1] == value[|value| - 1];
    TrimPadded("\r\n", x, "\r\n");
  }

  /** The disposition prefix is removed. */
  lemma StripDisposition(rest: string)
    ensures ReplaceFirst(Disposition + rest, Disposition, "") == rest
  {
    var x := Disposition + rest;
    assert x[..|Disposition|] == Disposition;
    assert x[|Disposition|..] == rest;
  }

  /** A name line without line terminators has no CR or LF. */
  lemma NameLineNoBreak(name: string)
    requires NoLineTerminator(name)
    ensures NoBreak(NameLine(name))
  {
    var line := NameLine(name);
    assert forall i :: 6 <= i < |line| - 1 ==> line[i] == name[i - 6];
  }

  /** The separator between the header line and the value is made of breaks. */
  lemma BlankLineBreaks()
    ensures AllBreaks("\r\n\r\n")
  {
    var t := "\r\n\r\n";
    assert t[0] == '\r' && t[1] == '\n' && t[2] == '\r' && t[3] == '\n';
  }

  /** The lines of a well-formed field: the name line and the value. */
  lemma FieldBodyLines(name: string, value: string)
    requires NoLineTerminator(name) && NoBreak(value)
    ensures SplitBreaks(FieldBody(name, value)) == [NameLine(name), value]
  {
    NameLineNoBreak(name);
    BlankLineBreaks();
    SplitBreaksTwo(NameLine(name), "\r\n\r\n", value);
  }

  /** A well-formed chunk yields its field. */
  lemma PartFieldRoundTrip(name: string, value: string)
    requires name != "" && NoLineTerminator(name)
    requires value != "" && NoBreak(value) && !IsSpace(value[0]) && !IsSpace(value[|value| - 1])
    ensures PartField(FieldChunk(name, value)) == Some((name, value))
  {
    TrimFieldChunk(name, value);
    StripDisposition(FieldBody(name, value));
    FieldBodyLines(name, value);
    NameOfRoundTrip(name);
  }

  /** Text without the separator cannot contain it near its end either. */
  lemma ShortNoContains(s: string, sep: string)
    requires |s| < |sep|
    ensures !Contains(s, sep)
  {
  }

  /** A chunk between an opening and a closing delimiter is the middle of three pieces. */
  lemma SplitOneChunk(sep: string, chunk: string)
    requires |sep| > 2 && !Contains(chunk + sep[..|sep| - 1], sep)
    ensures Split(sep + chunk + sep + "--", sep) == ["", chunk, "--"]
  {
    ShortNoContains("" + sep[..|sep| - 1], sep);
    assert sep + chunk + sep + "--" == "" + sep + (chunk + sep + "--");
    SplitAfterFirst("", sep, chunk + sep + "--");
    SplitAfterFirst(chunk, sep, "--");
    ShortNoContains("--", sep);
    SplitWithout("--", sep);
  }

  /** An empty chunk adds nothing. */
  lemma CollectAfterBlank(chunk: string)
    ensures Collect(["", chunk]) == Collect([chunk])
  {
    assert PartField("") == None by {
      assert Trim("") == "";
    }
    CollectSnoc([], "");
    CollectSnoc([], chunk);
    CollectSnoc([""], chunk);
    assert [] + [""] == [""];
    assert [] + [chunk] == [chunk];
    assert [""] + [chunk] == ["", chunk];
  }

  /** A body holding one well-formed field between two delimiters decodes to that field. */
  lemma MultipartSingleField(boundary: string, name: string, value: string)
    requires boundary != ""
    requires name != "" && NoLineTerminator(name)
    requires value != "" && NoBreak(value) && !IsSpace(value[0]) && !IsSpace(value[|value| - 1])
    requires !Contains(FieldChunk(name, value) + ("--" + boundary)[..|boundary| + 1], "--" + boundary)
    ensures MultipartFields("--" + boundary + FieldChunk(name, value) + "--" + boundary + "--", boundary)
            == map[name := value]
  {
    var sep := "--" + boundary;
    var chunk := FieldChunk(name, value);
    assert "--" + boundary + chunk + "--" + boundary + "--" == sep + chunk + sep + "--";
    SplitOneChunk(sep, chunk);
    var parts := ["", chunk, "--"];
    assert parts[..|parts| - 1] == ["", chunk];
    CollectAfterBlank(chunk);
    PartFieldRoundTrip(name, value);
    CollectSnoc([], chunk);
    assert [] + [chunk] == [chunk];
  }

  /** A body without the delimiter has no fields. */
  lemma MultipartWithoutDelimiter(body: string, boundary: string)
    requires boundary != "" && !Contains(body, "--" + boundary)
    ensures MultipartFields(body, boundary) == map[]
  {
    SplitWithout(body, "--" + boundary);
  }

  // ---------------------------------------------------------------------------
  // The content-type branch

  /** The result of decoding a body: the record of fields, a multipart content type
      without a boundary, an unsupported content type, or an exception. */
  datatype Decoded = Fields(data: map<string, string>) | NoBoundary | Unsupported | Failed(fault: Fault)

  /** The body as the handler sees it after base64 decoding; decoding an absent body
      throws. */
  function BodyText(body: Option<string>, isBase64: bool, lib: Library): Option<string>
    requires isBase64 ==> body.Some?
  {
    if isBase64 then Some(lib.fromBase64(body.value)) else body
  }

  predicate IsMultipart(contentType: Option<string>) {
    contentType.Some? && StartsWith(contentType.value, Multipart)
  }

  /** The decoder. An absent body is parsed as an empty query string, makes the multipart
      split throw, and is not valid JSON. */
  function DecodeBody(contentType: Option<string>, body: Option<string>, isBase64: bool, lib: Library)
    : Decoded
  {
    if isBase64 && body.None? then Failed(TypeError)
    else
      var text := BodyText(body, isBase64, lib);
      if contentType == Some(UrlEncoded) then
        Fields(if text.Some? then lib.parseQueryString(text.value) else map[])
      else if IsMultipart(contentType) then
        match BoundaryOf(contentType.value)
        case None => NoBoundary
        case Some(b) => if text.Some? then Fields(MultipartFields(text.value, b)) else Failed(TypeError)
      else if contentType == Some(Json) then
        if text.None? then Failed(SyntaxError)
        else match lib.parseJson(text.value)
          case None => Failed(SyntaxError)
          case Some(m) => Fields(m)
      else Unsupported
  }

  /** The decoder as the handlers run it, with the multipart loop. */
  method Decode(contentType: Option<string>, body: Option<string>, isBase64: bool, lib: Library)
    returns (d: Decoded)
    ensures d == DecodeBody(contentType, body, isBase64, lib)
  {
    if isBase64 && body.None? {
      return Failed(TypeError);
    }
    var text := BodyText(body, isBase64, lib);
    if contentType == Some(UrlEncoded) {
      return Fields(if text.Some? then lib.parseQueryString(text.value) else map[]);
    } else if IsMultipart(contentType) {
      var boundary := BoundaryOf(contentType.value);
      if boundary.None? {
        return NoBoundary;
      }
      if text.None? {
        return Failed(TypeError);
      }
      var data := ParseMultipart(text.value, boundary.value);
      return Fields(data);
    } else if contentType == Some(Json) {
      if text.None? {
        return Failed(SyntaxError);
      }
      match lib.parseJson(text.value)
      case None => return Failed(SyntaxError);
      case Some(m) => return Fields(m);
    }
    return Unsupported;
  }

  /** A field read from the decoded record, truthy when present and non-empty. */
  function Field(data: map<string, string>, k: string): Option<string> {
    Lookup(data, k)
  }
}
