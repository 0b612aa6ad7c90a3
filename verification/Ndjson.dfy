/** The catalogue export as bytes, and the streaming verifier that accepts it.
    JSON text and the digest are abstract: a codec is only assumed faithful on the records it is used for. */
module Ndjson {
  import opened Options

  newtype byte = b: int | 0 <= b < 0x100

  type Bytes = seq<byte>

  const NEWLINE: byte := 10

  datatype Json =
    | Null
    | Bool(flag: bool)
    | Number(value: real)
    | Text(text: string)
    | List(items: seq<Json>)
    | Object(fields: map<string, Json>)

  datatype Codec = Codec(encode: Json -> Bytes, decode: Bytes -> Option<Json>, digest: Bytes -> string)

  // ----- Python's view of a decoded value -----

  function Get(fields: map<string, Json>, key: string): Json {
    if key in fields then fields[key] else Null
  }

  predicate Truthy(j: Json) {
    match j
    case Null => false
    case Bool(flag) => flag
    case Number(value) => value != 0.0
    case Text(text) => text != ""
    case List(items) => items != []
    case Object(fields) => fields != map[]
  }

  /** Equality up to True == 1 and False == 0, inside containers too. */
  function Normal(j: Json): Json {
    match j
    case Bool(flag) => Number(if flag then 1.0 else 0.0)
    case List(items) => List(seq(|items|, k requires 0 <= k < |items| => Normal(items[k])))
    case Object(fields) => Object(map key | key in fields :: Normal(fields[key]))
    case _ => j
  }

  predicate Equal(a: Json, b: Json) {
    Normal(a) == Normal(b)
  }

  /** What equality with a number or a text comes to: themselves, and Python's True for 1 and False for 0. */
  lemma EqualMeans(j: Json, x: real, t: string)
    ensures Equal(j, Number(x)) <==> j == Number(x) || (j == Bool(true) && x == 1.0) || (j == Bool(false) && x == 0.0)
    ensures Equal(j, Text(t)) <==> j == Text(t)
    ensures Equal(j, j)
  {
  }

  // ----- lines -----

  function Concat(lines: seq<Bytes>): Bytes {
    if lines == [] then [] else lines[0] + Concat(lines[1..])
  }

  function LineEnd(s: Bytes): (n: nat)
    requires s != []
    ensures 0 < n <= |s|
    ensures s[n - 1] == NEWLINE || n == |s|
    ensures forall k :: 0 <= k < n - 1 ==> s[k] != NEWLINE
  {
    if s[0] == NEWLINE || |s| == 1 then 1 else 1 + LineEnd(s[1..])
  }

  /** Iterating over a binary file: every line keeps its newline, the last may lack one. */
  function Lines(s: Bytes): seq<Bytes> {
    if s == [] then [] else [s[..LineEnd(s)]] + Lines(s[LineEnd(s)..])
  }

  predicate Complete(line: Bytes) {
    line != [] && line[|line| - 1] == NEWLINE
  }

  ghost predicate OneLine(line: Bytes) {
    Complete(line) && forall k :: 0 <= k < |line| - 1 ==> line[k] != NEWLINE
  }

  lemma FirstLine(line: Bytes, rest: Bytes)
    requires OneLine(line)
    ensures Lines(line + rest) == [line] + Lines(rest)
  {
    var n := LineEnd(line + rest);
    assert (line + rest)[|line| - 1] == NEWLINE;
    assert n <= |line|;
    assert (line + rest)[n - 1] == line[n - 1];
    assert (line + rest)[..n] == line && (line + rest)[n..] == rest;
  }

  lemma {:induction false} LinesOf(lines: seq<Bytes>, rest: Bytes)
    requires forall k :: 0 <= k < |lines| ==> OneLine(lines[k])
    ensures Lines(Concat(lines) + rest) == lines + Lines(rest)
    decreases |lines|
  {
    if lines == [] {
      assert Concat(lines) + rest == rest;
    } else {
      assert Concat(lines) + rest == lines[0] + (Concat(lines[1..]) + rest);
      FirstLine(lines[0], Concat(lines[1..]) + rest);
      LinesOf(lines[1..], rest);
    }
  }

  /** Splitting into lines loses nothing. */
  lemma {:induction false} LinesJoin(s: Bytes)
    ensures Concat(Lines(s)) == s
  {
    if s != [] {
      var n := LineEnd(s);
      LinesJoin(s[n..]);
      assert Lines(s)[1..] == Lines(s[n..]) && s == s[..n] + s[n..];
    }
  }

  lemma TakeLine(body: Bytes) returns (line: Bytes, more: Bytes)
    requires Complete(body)
    ensures body == line + more && OneLine(line) && (more == [] || Complete(more))
    ensures Lines(body) == [line] + Lines(more)
  {
    line, more := body[..LineEnd(body)], body[LineEnd(body)..];
  }

  lemma {:induction false} LinesAreLines(body: Bytes)
    requires body == [] || Complete(body)
    ensures forall k :: 0 <= k < |Lines(body)| ==> OneLine(Lines(body)[k])
    decreases |body|
  {
    if body != [] {
      var line, more := TakeLine(body);
      LinesAreLines(more);
    }
  }

  /** What follows a newline begins a line of its own. */
  lemma LinesSplit(body: Bytes, rest: Bytes)
    requires body == [] || Complete(body)
    ensures Lines(body + rest) == Lines(body) + Lines(rest)
  {
    LinesAreLines(body);
    LinesJoin(body);
    LinesOf(Lines(body), rest);
  }

  lemma {:induction false} ConcatAppend(a: seq<Bytes>, b: seq<Bytes>)
    ensures Concat(a + b) == Concat(a) + Concat(b)
    decreases |a|
  {
    if a == [] {
      assert a + b == b;
    } else {
      assert (a + b)[1..] == a[1..] + b;
      ConcatAppend(a[1..], b);
    }
  }

  /** Less than a line reads as at most one line, without its newline. */
  lemma TornLine(line: Bytes, torn: Bytes)
    requires OneLine(line) && torn < line
    ensures !Complete(torn) && Lines(torn) == if torn == [] then [] else [torn]
  {
    if torn != [] {
      assert torn[..LineEnd(torn)] == torn && torn[LineEnd(torn)..] == [];
    }
  }

  lemma {:induction false} SplitPrefix(lines: seq<Bytes>, received: Bytes) returns (n: nat, torn: Bytes)
    requires received < Concat(lines)
    ensures n < |lines| && torn < lines[n] && received == Concat(lines[..n]) + torn
    decreases |lines|
  {
    var first := lines[0];
    PrefixOfBoth(first, Concat(lines[1..]), received);
    if |received| < |first| {
      n, torn := 0, received;
      assert lines[..0] == [];
    } else {
      n, torn := SplitPrefix(lines[1..], received[|first|..]);
      n := n + 1;
      assert lines[..n][1..] == lines[1..][..n - 1];
    }
  }

  /** A proper prefix of complete lines reads as the first of them and at most one torn line, which no newline ends. */
  lemma LinesOfPrefix(lines: seq<Bytes>, received: Bytes) returns (n: nat, torn: Bytes)
    requires forall k :: 0 <= k < |lines| ==> OneLine(lines[k])
    requires received < Concat(lines)
    ensures n < |lines| && torn < lines[n] && !Complete(torn)
    ensures Lines(received) == lines[..n] + if torn == [] then [] else [torn]
  {
    n, torn := SplitPrefix(lines, received);
    LinesOf(lines[..n], torn);
    TornLine(lines[n], torn);
  }

  lemma PrefixOfBoth(a: Bytes, b: Bytes, received: Bytes)
    requires received < a + b
    ensures if |received| < |a| then received < a else received == a + received[|a|..] && received[|a|..] < b
  {
    var n := |received|;
    assert received == (a + b)[..n];
    if n < |a| { assert (a + b)[..n] == a[..n]; } else { assert (a + b)[..n] == a + b[..n - |a|]; }
  }

  // ----- what the verifier accepts -----

  predicate IsManifest(codec: Codec, line: Bytes) {
    match codec.decode(line)
    case Some(Object(fields)) =>
      && Get(fields, "type") == Text("manifest") && Equal(Get(fields, "schemaVersion"), Number(1.0))
      && Truthy(Get(fields, "exportId"))
    case _ => false
  }

  function ExportId(codec: Codec, line: Bytes): Json
    requires IsManifest(codec, line)
  {
    Get(codec.decode(line).value.fields, "exportId")
  }

  predicate IsImage(codec: Codec, line: Bytes) {
    match codec.decode(line)
    case Some(Object(fields)) => Get(fields, "type") == Text("image") && Get(fields, "data").Object?
    case _ => false
  }

  predicate IsEnd(codec: Codec, line: Bytes, exportId: Json, count: nat, body: Bytes) {
    match codec.decode(line)
    case Some(Object(fields)) =>
      && Get(fields, "type") == Text("end")
      && Equal(Get(fields, "exportId"), exportId)
      && Equal(Get(fields, "recordCount"), Number(count as real))
      && Get(fields, "sha256") == Text(codec.digest(body))
    case _ => false
  }

  /** Manifest, images, end, nothing else; count and digest are those of exactly the image lines. */
  ghost predicate Accepted(codec: Codec, lines: seq<Bytes>) {
    var last := |lines| - 1;
    && last >= 1
    && (forall k :: 0 <= k < |lines| ==> Complete(lines[k]))
    && IsManifest(codec, lines[0])
    && (forall k :: 1 <= k < last ==> IsImage(codec, lines[k]))
    && IsEnd(codec, lines[last], ExportId(codec, lines[0]), last - 1, Concat(lines[1..last]))
  }

  /** What an accepted sequence of lines says, on the decoded records: a manifest of version 1 with an id, image
      records, and an end record with that id, their number and the digest of exactly their bytes. */
  lemma AcceptedRecords(codec: Codec, lines: seq<Bytes>)
    requires Accepted(codec, lines)
    ensures |lines| >= 2
    ensures exists manifest, end ::
      && codec.decode(lines[0]) == Some(Object(manifest)) && codec.decode(lines[|lines| - 1]) == Some(Object(end))
      && Get(manifest, "type") == Text("manifest") && Equal(Get(manifest, "schemaVersion"), Number(1.0))
      && Get(manifest, "exportId") !in {Null, Bool(false), Number(0.0), Text(""), List([]), Object(map[])}
      && Get(end, "type") == Text("end") && Equal(Get(end, "exportId"), Get(manifest, "exportId"))
      && Equal(Get(end, "recordCount"), Number((|lines| - 2) as real))
      && Get(end, "sha256") == Text(codec.digest(Concat(lines[1..|lines| - 1])))
    ensures forall k :: 0 <= k < |lines| ==> lines[k] != [] && lines[k][|lines[k]| - 1] == 10
    ensures forall k :: 1 <= k < |lines| - 1 ==>
      exists fields :: codec.decode(lines[k]) == Some(Object(fields))
        && Get(fields, "type") == Text("image") && Get(fields, "data").Object?
  {
    var manifest, end := codec.decode(lines[0]).value.fields, codec.decode(lines[|lines| - 1]).value.fields;
    assert codec.decode(lines[0]) == Some(Object(manifest)) && codec.decode(lines[|lines| - 1]) == Some(Object(end));
  }

  /** The type field of a line that holds an object. */
  function Kind(codec: Codec, line: Bytes): Option<Json> {
    match codec.decode(line)
    case Some(Object(fields)) => Some(Get(fields, "type"))
    case _ => None
  }

  /** Invalid is the JSON decoder's own error. */
  datatype Refusal = Invalid | NoObject | NoManifest | NoImageData | Mismatch | UnexpectedRecord

  function Message(refusal: Refusal): string {
    match refusal
    case Invalid => "Invalid JSON"
    case NoObject => "Expected an NDJSON object"
    case NoManifest => "Unsupported or missing export manifest"
    case NoImageData => "Missing image data"
    case Mismatch => "Export count, checksum, or identifier mismatch"
    case UnexpectedRecord => "Unexpected export record"
  }

  /** When each refusal is the right one; no two of them fit the same record. */
  predicate Explains(
    refusal: Refusal, codec: Codec, line: Bytes, manifest: Option<map<string, Json>>, count: nat, digested: Bytes)
  {
    var kind := Kind(codec, line);
    match refusal
    case Invalid => codec.decode(line).None?
    case NoObject => codec.decode(line).Some? && kind.None?
    case NoManifest => manifest.None? && kind.Some? && !IsManifest(codec, line)
    case NoImageData => manifest.Some? && kind == Some(Text("image")) && !IsImage(codec, line)
    case Mismatch =>
      && manifest.Some? && kind == Some(Text("end"))
      && !IsEnd(codec, line, Get(manifest.value, "exportId"), count, digested)
    case UnexpectedRecord => manifest.Some? && kind.Some? && kind != Some(Text("image")) && kind != Some(Text("end"))
  }

  datatype Verdict = Opens(fields: map<string, Json>) | Copies | Closes | Refused(refusal: Refusal)

  /** The checks copy_export makes on one complete line, given what it has seen before. */
  method CheckRecord(
    codec: Codec, line: Bytes, manifest: Option<map<string, Json>>, count: nat, digested: Bytes)
    returns (v: Verdict)
    ensures v.Opens? <==> manifest.None? && IsManifest(codec, line)
    ensures v.Opens? ==> codec.decode(line) == Some(Object(v.fields))
    ensures v.Copies? <==> manifest.Some? && IsImage(codec, line)
    ensures v.Closes? <==> manifest.Some? && IsEnd(codec, line, Get(manifest.value, "exportId"), count, digested)
    ensures v.Refused? ==> Explains(v.refusal, codec, line, manifest, count, digested)
    ensures v.Closes? || v == Refused(Mismatch) ==>
      && manifest.Some? && codec.decode(line).Some? && codec.decode(line).value.Object?
      && var fields := codec.decode(line).value.fields;
         && Get(fields, "type") == Text("end")
         && (v.Closes? <==>
               && Equal(Get(fields, "exportId"), Get(manifest.value, "exportId"))
               && Equal(Get(fields, "recordCount"), Number(count as real))
               && Get(fields, "sha256") == Text(codec.digest(digested)))
  {
    var record := codec.decode(line);
    if record.None? { return Refused(Invalid); }
    if !record.value.Object? { return Refused(NoObject); }
    var fields := record.value.fields;
    if manifest.None? {
      if Get(fields, "type") != Text("manifest")
        || !Equal(Get(fields, "schemaVersion"), Number(1.0))
        || !Truthy(Get(fields, "exportId"))
      {
        return Refused(NoManifest);
      }
      return Opens(fields);
    } else if Get(fields, "type") == Text("image") {
      if !Get(fields, "data").Object? {
        return Refused(NoImageData);
      }
      return Copies;
    } else if Get(fields, "type") == Text("end") {
      if !Equal(Get(fields, "exportId"), Get(manifest.value, "exportId"))
        || !Equal(Get(fields, "recordCount"), Number(count as real))
        || Get(fields, "sha256") != Text(codec.digest(digested))
      {
        return Refused(Mismatch);
      }
      return Closes;
    } else {
      return Refused(UnexpectedRecord);
    }
  }

  lemma ConcatNext(lines: seq<Bytes>, k: nat)
    requires 1 <= k < |lines|
    ensures Concat(lines[1..k + 1]) == Concat(lines[1..k]) + lines[k]
  {
    assert lines[1..k + 1] == lines[1..k] + [lines[k]];
    ConcatAppend(lines[1..k], [lines[k]]);
    assert Concat([lines[k]]) == lines[k] by { assert [lines[k]][1..] == []; }
  }

  /** Where copy_export stands before line k. */
  ghost predicate Progress(
    codec: Codec, lines: seq<Bytes>, k: nat,
    manifest: Option<map<string, Json>>, complete: bool, count: nat, output: Bytes)
    requires k <= |lines|
  {
    && (forall j :: 0 <= j < k ==> Complete(lines[j]))
    && (manifest.None? <==> k == 0)
    && (if k == 0 then !complete && count == 0 && output == [] else
          && count == k - (if complete then 2 else 1)
          && IsManifest(codec, lines[0]) && ExportId(codec, lines[0]) == Get(manifest.value, "exportId")
          && (forall j :: 1 <= j <= count ==> IsImage(codec, lines[j]))
          && output == Concat(lines[1..count + 1])
          && (complete ==> IsEnd(codec, lines[k - 1], Get(manifest.value, "exportId"), count, output)))
  }

  lemma RefusedIsNotAccepted(
    codec: Codec, lines: seq<Bytes>, k: nat,
    manifest: Option<map<string, Json>>, complete: bool, count: nat, output: Bytes)
    requires k < |lines| && Progress(codec, lines, k, manifest, complete, count, output)
    requires complete || !Complete(lines[k])
      || (if manifest.None? then !IsManifest(codec, lines[k])
          else !IsImage(codec, lines[k]) && !IsEnd(codec, lines[k], Get(manifest.value, "exportId"), count, output))
    ensures !Accepted(codec, lines)
  {
  }

  lemma CopiedKeepsProgress(
    codec: Codec, lines: seq<Bytes>, k: nat, manifest: Option<map<string, Json>>, count: nat, output: Bytes)
    requires k < |lines| && Progress(codec, lines, k, manifest, false, count, output)
    requires manifest.Some? && Complete(lines[k]) && IsImage(codec, lines[k])
    ensures Progress(codec, lines, k + 1, manifest, false, count + 1, output + lines[k])
  {
    ConcatNext(lines, k);
  }

  lemma OpenedKeepsProgress(codec: Codec, lines: seq<Bytes>, fields: map<string, Json>)
    requires |lines| > 0 && Complete(lines[0]) && IsManifest(codec, lines[0])
    requires codec.decode(lines[0]) == Some(Object(fields))
    ensures Progress(codec, lines, 1, Some(fields), false, 0, [])
  {
    assert lines[1..1] == [];
  }

  lemma ClosedKeepsProgress(
    codec: Codec, lines: seq<Bytes>, k: nat, manifest: Option<map<string, Json>>, count: nat, output: Bytes)
    requires k < |lines| && Progress(codec, lines, k, manifest, false, count, output)
    requires manifest.Some? && Complete(lines[k])
    requires IsEnd(codec, lines[k], Get(manifest.value, "exportId"), count, output)
    ensures Progress(codec, lines, k + 1, manifest, true, count, output)
  {
  }

  lemma ProgressIsVerdict(
    codec: Codec, lines: seq<Bytes>, manifest: Option<map<string, Json>>, complete: bool, count: nat, output: Bytes)
    requires Progress(codec, lines, |lines|, manifest, complete, count, output)
    ensures complete <==> Accepted(codec, lines)
    ensures complete ==> |lines| >= 2 && count == |lines| - 2 && output == Concat(lines[1..|lines| - 1])
  {
    if !complete && Accepted(codec, lines) {
      EndIsNoImage(codec, lines);
    }
  }

  lemma EndIsNoImage(codec: Codec, lines: seq<Bytes>)
    requires Accepted(codec, lines)
    ensures !IsImage(codec, lines[|lines| - 1])
  {
  }

  /** The loop over the lines of the response. */
  method CopyLines(codec: Codec, lines: seq<Bytes>) returns (r: Result<nat, string>, output: Bytes)
    ensures r.Ok? <==> Accepted(codec, lines)
    ensures r.Ok? ==> r.value == |lines| - 2 && output == Concat(lines[1..|lines| - 1])
  {
    var manifest: Option<map<string, Json>> := None;
    var complete, count: nat, digested: Bytes := false, 0, [];
    output := [];
    var k := 0;
    while k < |lines|
      invariant 0 <= k <= |lines| && digested == output
      invariant Progress(codec, lines, k, manifest, complete, count, output)
    {
      var line := lines[k];
      if complete || !Complete(line) {
        RefusedIsNotAccepted(codec, lines, k, manifest, complete, count, output);
        return Err("Unexpected data after end or incomplete NDJSON line"), output;
      }
      var verdict := CheckRecord(codec, line, manifest, count, digested);
      match verdict {
        case Refused(refusal) =>
          RefusedIsNotAccepted(codec, lines, k, manifest, complete, count, output);
          return Err(Message(refusal)), output;
        case Opens(fields) =>
          OpenedKeepsProgress(codec, lines, fields);
          manifest := Some(fields);
        case Closes =>
          ClosedKeepsProgress(codec, lines, k, manifest, count, output);
          complete := true;
        case Copies =>
          CopiedKeepsProgress(codec, lines, k, manifest, count, output);
          digested := digested + line;
          output := output + line;
          count := count + 1;
      }
      k := k + 1;
    }
    ProgressIsVerdict(codec, lines, manifest, complete, count, output);
    if !complete {
      return Err("Export interrupted: missing end record"), output;
    }
    return Ok(count), output;
  }

  /** copy_export: one pass over the lines, accepting exactly the complete and verified exports. */
  method CopyExport(codec: Codec, source: Bytes) returns (r: Result<nat, string>, output: Bytes)
    ensures r.Ok? <==> Accepted(codec, Lines(source))
    ensures r.Ok? ==> r.value == |Lines(source)| - 2 && output == Concat(Lines(source)[1..|Lines(source)| - 1])
    ensures r.Ok? ==>
      var lines := Lines(source);
      exists manifest, end ::
        && codec.decode(lines[0]) == Some(Object(manifest)) && codec.decode(lines[|lines| - 1]) == Some(Object(end))
        && Get(manifest, "type") == Text("manifest") && Equal(Get(manifest, "schemaVersion"), Number(1.0))
        && Get(manifest, "exportId") !in {Null, Bool(false), Number(0.0), Text(""), List([]), Object(map[])}
        && Get(end, "type") == Text("end") && Equal(Get(end, "exportId"), Get(manifest, "exportId"))
        && Equal(Get(end, "recordCount"), Number(r.value as real))
        && Get(end, "sha256") == Text(codec.digest(output))
  {
    r, output := CopyLines(codec, Lines(source));
    if r.Ok? { AcceptedRecords(codec, Lines(source)); }
  }

  // ----- the export -----

  function ManifestRecord(exportId: string, startedAt: string): Json {
    Object(map["type" := Text("manifest"), "schemaVersion" := Number(1.0),
               "exportId" := Text(exportId), "startedAt" := Text(startedAt)])
  }

  function ImageRecord(data: map<string, Json>): Json {
    Object(map["type" := Text("image"), "data" := Object(data)])
  }

  function EndRecord(exportId: string, count: nat, sha256: string): Json {
    Object(map["type" := Text("end"), "exportId" := Text(exportId),
               "recordCount" := Number(count as real), "sha256" := Text(sha256)])
  }

  function Line(codec: Codec, record: Json): Bytes {
    codec.encode(record) + [NEWLINE]
  }

  ghost predicate Faithful(codec: Codec, record: Json) {
    NEWLINE !in codec.encode(record) && codec.decode(Line(codec, record)) == Some(record)
  }

  function ImageLines(codec: Codec, images: seq<map<string, Json>>): seq<Bytes> {
    seq(|images|, k requires 0 <= k < |images| => Line(codec, ImageRecord(images[k])))
  }

  function EndLine(codec: Codec, exportId: string, images: seq<map<string, Json>>): Bytes {
    Line(codec, EndRecord(exportId, |images|, codec.digest(Concat(ImageLines(codec, images)))))
  }

  function ExportLines(codec: Codec, exportId: string, startedAt: string, images: seq<map<string, Json>>): seq<Bytes> {
    [Line(codec, ManifestRecord(exportId, startedAt))] + ImageLines(codec, images) + [EndLine(codec, exportId, images)]
  }

  ghost predicate FaithfulExport(codec: Codec, exportId: string, startedAt: string, images: seq<map<string, Json>>) {
    && exportId != ""
    && Faithful(codec, ManifestRecord(exportId, startedAt))
    && (forall k :: 0 <= k < |images| ==> Faithful(codec, ImageRecord(images[k])))
    && Faithful(codec, EndRecord(exportId, |images|, codec.digest(Concat(ImageLines(codec, images)))))
  }

  lemma ExportShape(codec: Codec, exportId: string, startedAt: string, images: seq<map<string, Json>>)
    requires FaithfulExport(codec, exportId, startedAt, images)
    ensures var lines := ExportLines(codec, exportId, startedAt, images);
      && (forall k :: 0 <= k < |lines| ==> OneLine(lines[k]))
      && Accepted(codec, lines)
      && lines[1..|lines| - 1] == ImageLines(codec, images)
  {
    var lines := ExportLines(codec, exportId, startedAt, images);
    assert lines[1..|lines| - 1] == ImageLines(codec, images);
    forall k | 1 <= k < |lines| - 1 ensures IsImage(codec, lines[k]) && OneLine(lines[k]) {
      assert Faithful(codec, ImageRecord(images[k - 1]));
    }
  }

  /** Main result: a completed export is accepted with its image count, and the copy is exactly the image lines. */
  lemma CompletedExportAccepted(codec: Codec, exportId: string, startedAt: string, images: seq<map<string, Json>>)
    requires FaithfulExport(codec, exportId, startedAt, images)
    ensures var source := Concat(ExportLines(codec, exportId, startedAt, images));
      && Accepted(codec, Lines(source))
      && |Lines(source)| - 2 == |images|
      && Concat(Lines(source)[1..|Lines(source)| - 1]) == Concat(ImageLines(codec, images))
  {
    var lines := ExportLines(codec, exportId, startedAt, images);
    ExportShape(codec, exportId, startedAt, images);
    LinesOf(lines, []);
    assert Concat(lines) + [] == Concat(lines) && lines + Lines([]) == lines;
  }

  /** Main result: every proper byte prefix is rejected, wherever the connection or the export broke off. */
  lemma TruncationRejected(
    codec: Codec, exportId: string, startedAt: string, images: seq<map<string, Json>>, received: Bytes)
    requires FaithfulExport(codec, exportId, startedAt, images)
    requires received < Concat(ExportLines(codec, exportId, startedAt, images))
    ensures !Accepted(codec, Lines(received))
  {
    var lines := ExportLines(codec, exportId, startedAt, images);
    var got := Lines(received);
    ExportShape(codec, exportId, startedAt, images);
    var n, torn := LinesOfPrefix(lines, received);
    assert torn != [] ==> got[n] == torn;
  }

  /** Main result: nothing may follow the end record. */
  lemma ExtraDataRejected(
    codec: Codec, exportId: string, startedAt: string, images: seq<map<string, Json>>, extra: Bytes)
    requires FaithfulExport(codec, exportId, startedAt, images) && extra != []
    ensures !Accepted(codec, Lines(Concat(ExportLines(codec, exportId, startedAt, images)) + extra))
  {
    var lines := ExportLines(codec, exportId, startedAt, images);
    var got := Lines(Concat(lines) + extra);
    ExportShape(codec, exportId, startedAt, images);
    LinesOf(lines, extra);
    var last := |lines| - 1;
    assert got[last] == lines[last] && last < |got| - 1;
  }

  lemma FramedLines(manifest: Bytes, body: Bytes, end: Bytes)
    requires OneLine(manifest) && OneLine(end) && (body == [] || Complete(body))
    ensures Lines(manifest + (body + end)) == [manifest] + Lines(body) + [end]
  {
    FirstLine(manifest, body + end);
    LinesSplit(body, end);
    FirstLine(end, []);
    assert end + [] == end && Lines([]) == [];
  }

  /** Main result: a body altered on the way is rejected whatever its lines now say, unless its digest is the same. */
  lemma AlteredBodyRejected(
    codec: Codec, exportId: string, startedAt: string, images: seq<map<string, Json>>, body: Bytes)
    requires FaithfulExport(codec, exportId, startedAt, images)
    requires body == [] || Complete(body)
    requires codec.digest(body) != codec.digest(Concat(ImageLines(codec, images)))
    ensures !Accepted(codec,
      Lines(Line(codec, ManifestRecord(exportId, startedAt)) + (body + EndLine(codec, exportId, images))))
  {
    var manifest, end := Line(codec, ManifestRecord(exportId, startedAt)), EndLine(codec, exportId, images);
    var lines := Lines(manifest + (body + end));
    FramedLines(manifest, body, end);
    LinesJoin(body);
    assert lines[1..|lines| - 1] == Lines(body);
    if Accepted(codec, lines) { AcceptedRecords(codec, lines); }
  }
}
