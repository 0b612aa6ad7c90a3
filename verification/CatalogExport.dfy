/** The producing side: keyset pages over one database snapshot, framed as NDJSON with a count and a digest. */
module CatalogExport {
  import opened Catalog
  import opened Ndjson
  import opened Views
  import opened Tags
  import Keyset

  const PAGE: nat := 1000

  datatype Tag = Tag(id: nat, name: string)

  datatype Identifier = Identifier(id: int, createdAt: string, username: string)

  datatype ImageRow = ImageRow(
    id: nat, view: View, key: string, createdAt: string, uploader: Identifier, tagIds: seq<nat>, tagNames: seq<string>)

  datatype Response = Response(
    id: nat, view: View, key: string, createdAt: string, uploader: Identifier, tags: seq<Tag>)

  /** Storage keys, timestamps as they are written, and the uploaders, none of which any step of the protocol changes.
      */
  datatype Details = Details(key: nat -> string, stamp: int -> string, person: int -> Identifier)

  /** One read-only repeatable-read transaction sees one state of the rows and of the tag tables. */
  datatype DbSnapshot = DbSnapshot(db: Store, rows: TagRows, details: Details)

  function LiveIds(s: DbSnapshot): set<nat> {
    LiveView(s.db).Keys
  }

  function RowOf(s: DbSnapshot, i: nat): (row: ImageRow)
    requires i in LiveIds(s)
    ensures Even(row)
  {
    var view := LiveView(s.db)[i];
    Aligned(s.rows, view.version);
    var img := s.db.images[i];
    ImageRow(i, view, s.details.key(i), s.details.stamp(img.createdAt), s.details.person(img.uploader),
             TagIds(s.rows, view.version), TagNames(s.rows, view.version))
  }

  /** ListSyncImages. */
  function ListSyncImages(s: DbSnapshot, after: nat, limit: nat): seq<ImageRow> {
    var ids := Keyset.Page(LiveIds(s), after, limit);
    seq(|ids|, k requires 0 <= k < |ids| => RowOf(s, ids[k]))
  }

  predicate Even(row: ImageRow) {
    |row.tagNames| == |row.tagIds|
  }

  /** The record a row is exported as. */
  function ResponseOf(row: ImageRow): Response
    requires Even(row)
  {
    var tags := seq(|row.tagIds|, k requires 0 <= k < |row.tagIds| => Tag(row.tagIds[k], row.tagNames[k]));
    Response(row.id, row.view, row.key, row.createdAt, row.uploader, tags)
  }

  function ResponseFor(s: DbSnapshot, i: nat): Response
    requires i in LiveIds(s)
  {
    ResponseOf(RowOf(s, i))
  }

  /** The two independently ordered arrays pair each tag linked to the current version with its own name, once, ids
      ascending. */
  lemma TagsAligned(s: DbSnapshot, i: nat)
    requires i in LiveIds(s)
    ensures var row, tags := RowOf(s, i), ResponseFor(s, i).tags; var linked := TagsOf(s.rows, row.view.version);
      && |tags| == |row.tagIds| == |row.tagNames| == |linked|
      && (forall k :: 0 <= k < |tags| ==> tags[k].id in linked && tags[k].name == s.rows.names[tags[k].id])
      && (forall a, b :: 0 <= a < b < |tags| ==> tags[a].id < tags[b].id)
      && (forall t :: t in linked ==> exists k :: 0 <= k < |tags| && tags[k].id == t)
  {
    var version := LiveView(s.db)[i].version;
    Aligned(s.rows, version);
    PairsAlign(s.rows, TagsOf(s.rows, version),
      TagIds(s.rows, version), TagNames(s.rows, version), ResponseFor(s, i).tags);
  }

  /** The argument on the two columns alone. */
  lemma PairsAlign(rows: TagRows, linked: set<nat>, ids: seq<nat>, names: seq<string>, tags: seq<Tag>)
    requires Paired(rows.names, ids, names) && Keyset.Ascending(ids) && |ids| == |linked|
    requires forall t :: t in ids <==> t in linked
    requires |tags| == |ids| && forall k :: 0 <= k < |ids| ==> tags[k] == Tag(ids[k], names[k])
    ensures forall k :: 0 <= k < |tags| ==> tags[k].id in linked && tags[k].name == rows.names[tags[k].id]
    ensures forall a, b :: 0 <= a < b < |tags| ==> tags[a].id < tags[b].id
    ensures forall t :: t in linked ==> exists k :: 0 <= k < |tags| && tags[k].id == t
  {
    forall k | 0 <= k < |tags| ensures tags[k].id in linked { assert ids[k] in ids; }
    forall t | t in linked ensures exists k :: 0 <= k < |tags| && tags[k].id == t {
      assert t in ids;
      var k :| 0 <= k < |ids| && ids[k] == t;
      assert tags[k].id == t;
    }
  }

  function TagSet(tags: seq<Tag>): set<string> {
    set k | 0 <= k < |tags| :: tags[k].name
  }

  lemma CurrentIsListed(db: Store, i: nat)
    requires StoreInv(db) && i in LiveView(db)
    ensures var v := CurrentVersion(db.images[i]).value;
      v in db.images[i].versions && LiveView(db)[i] == View(v.id, v.number, v.content, db.images[i].url)
  {
  }

  lemma TagsNamed(s: DbSnapshot, i: nat)
    requires i in LiveIds(s)
    ensures TagSet(ResponseFor(s, i).tags) == NamesOf(s.rows, LiveView(s.db)[i].version)
  {
    var tags, version := ResponseFor(s, i).tags, LiveView(s.db)[i].version;
    TagsAligned(s, i);
    forall name | name in NamesOf(s.rows, version) ensures name in TagSet(tags) {
      var t :| t in TagsOf(s.rows, version) && s.rows.names[t] == name;
      var k :| 0 <= k < |tags| && tags[k].id == t;
      assert tags[k].name == name;
    }
  }

  /** In a catalogue whose links are exact, as every event keeps them, the exported tags are the tags of the current
      version. */
  lemma TagsComplete(s: DbSnapshot, i: nat)
    requires StoreInv(s.db) && TagsInv(s.rows, s.db) && i in LiveIds(s)
    ensures TagSet(ResponseFor(s, i).tags) == LiveView(s.db)[i].content.tags
  {
    TagsNamed(s, i);
    CurrentIsListed(s.db, i);
  }

  function RatingText(rating: Rating): string {
    match rating
    case RatingNone => "none"
    case RatingModerate => "moderate"
    case RatingViolent => "violent"
  }

  function ToFields(r: Response): map<string, Json> {
    map["id" := Number(r.id as real), "text" := Text(r.view.content.text),
        "rating" := Text(RatingText(r.view.content.rating)),
        "imageUrl" := Text(r.view.url), "imageKey" := Text(r.key), "createdAt" := Text(r.createdAt),
        "userIdentifier" := Object(map["id" := Number(r.uploader.id as real), "createdAt" := Text(r.uploader.createdAt),
                                       "username" := Text(r.uploader.username)]),
        "currentVersionId" := Number(r.view.version as real), "version" := Number(r.view.number as real),
        "tags" := TagList(r.tags), "deletion" := Null]
  }

  function TagList(tags: seq<Tag>): Json {
    List(seq(|tags|, k requires 0 <= k < |tags| =>
      Object(map["id" := Number(tags[k].id as real), "name" := Text(tags[k].name)])))
  }

  function RowFields(row: ImageRow): map<string, Json> {
    if Even(row) then ToFields(ResponseOf(row)) else map[]
  }

  /** The record of one image; asked for live images only. */
  function RecordOf(s: DbSnapshot, i: nat): map<string, Json> {
    if i in LiveIds(s) then ToFields(ResponseFor(s, i)) else map[]
  }

  /** The record of an image, field by field, read off its row and its last version. */
  lemma RecordShows(s: DbSnapshot, i: nat)
    requires StoreInv(s.db) && i in LiveIds(s)
    ensures i in s.db.images && s.db.images[i].versions != []
    ensures var img, record := s.db.images[i], RecordOf(s, i);
      var last, who := img.versions[|img.versions| - 1], s.details.person(img.uploader);
      && Get(record, "id") == Number(i as real) && Get(record, "currentVersionId") == Number(last.id as real)
      && Get(record, "version") == Number(last.number as real) && Get(record, "text") == Text(last.content.text)
      && (last.content.rating == RatingNone ==> Get(record, "rating") == Text("none"))
      && (last.content.rating == RatingModerate ==> Get(record, "rating") == Text("moderate"))
      && (last.content.rating == RatingViolent ==> Get(record, "rating") == Text("violent"))
      && Get(record, "imageUrl") == Text(img.url) && Get(record, "imageKey") == Text(s.details.key(i))
      && Get(record, "createdAt") == Text(s.details.stamp(img.createdAt)) && Get(record, "deletion") == Null
      && Get(record, "userIdentifier") == Object(map[
           "id" := Number(who.id as real), "createdAt" := Text(who.createdAt), "username" := Text(who.username)])
  {
    LiveViewShows(s.db, i);
    var r := ResponseShows(s, i);
    FieldsShow(r, ToFields(r));
  }

  lemma ResponseShows(s: DbSnapshot, i: nat) returns (r: Response)
    requires i in LiveIds(s)
    ensures r == ResponseFor(s, i) && RecordOf(s, i) == ToFields(r) && i in s.db.images
    ensures var img := s.db.images[i];
      && r.id == i && r.view == LiveView(s.db)[i] && r.key == s.details.key(i)
      && r.createdAt == s.details.stamp(img.createdAt) && r.uploader == s.details.person(img.uploader)
  {
    r := ResponseFor(s, i);
  }

  lemma FieldsShow(r: Response, record: map<string, Json>)
    requires record == ToFields(r)
    ensures Get(record, "id") == Number(r.id as real) && Get(record, "text") == Text(r.view.content.text)
    ensures Get(record, "rating") == Text(RatingText(r.view.content.rating))
    ensures Get(record, "imageUrl") == Text(r.view.url) && Get(record, "imageKey") == Text(r.key)
    ensures Get(record, "createdAt") == Text(r.createdAt) && Get(record, "deletion") == Null
    ensures Get(record, "currentVersionId") == Number(r.view.version as real)
    ensures Get(record, "version") == Number(r.view.number as real) && Get(record, "tags") == TagList(r.tags)
    ensures Get(record, "userIdentifier") == Object(map["id" := Number(r.uploader.id as real),
      "createdAt" := Text(r.uploader.createdAt), "username" := Text(r.uploader.username)])
  {
  }

  /** Its tags: an object for each tag linked to that version, ids ascending, each with its own name. */
  lemma RecordTags(s: DbSnapshot, i: nat, k: nat)
    requires StoreInv(s.db) && i in LiveIds(s)
    ensures var tags := ResponseFor(s, i).tags;
      && Get(RecordOf(s, i), "tags").List? && |Get(RecordOf(s, i), "tags").items| == |tags|
      && (k < |tags| ==>
            Get(RecordOf(s, i), "tags").items[k]
              == Object(map["id" := Number(tags[k].id as real), "name" := Text(tags[k].name)]))
  {
    var r := ResponseShows(s, i);
    FieldsShow(r, ToFields(r));
  }

  function Each<S, T>(record: S -> T, ids: seq<S>): (records: seq<T>)
    ensures |records| == |ids| && forall k :: 0 <= k < |ids| ==> records[k] == record(ids[k])
  {
    seq(|ids|, k requires 0 <= k < |ids| => record(ids[k]))
  }

  lemma EachAppend<S, T>(record: S -> T, a: seq<S>, b: seq<S>)
    ensures Each(record, a + b) == Each(record, a) + Each(record, b)
  {
  }

  function Recorder(s: DbSnapshot): nat -> map<string, Json> {
    (i: nat) => RecordOf(s, i)
  }

  function RecordsFor(s: DbSnapshot, ids: seq<nat>): seq<map<string, Json>> {
    Each(Recorder(s), ids)
  }

  /** Every live image of the snapshot once, in ascending id order. */
  function AllRecords(s: DbSnapshot): seq<map<string, Json>> {
    RecordsFor(s, Keyset.Sorted(LiveIds(s)))
  }

  /** Manifest and image lines, before any end record. */
  function Head(codec: Codec, exportId: string, startedAt: string, images: seq<map<string, Json>>): Bytes {
    Line(codec, ManifestRecord(exportId, startedAt)) + Concat(ImageLines(codec, images))
  }

  function ExportBytes(codec: Codec, exportId: string, startedAt: string, images: seq<map<string, Json>>): Bytes {
    Concat(ExportLines(codec, exportId, startedAt, images))
  }

  lemma HeadGrows(
    codec: Codec, exportId: string, startedAt: string, a: seq<map<string, Json>>, b: seq<map<string, Json>>)
    requires a <= b
    ensures Head(codec, exportId, startedAt, a) <= Head(codec, exportId, startedAt, b)
  {
    var rest := b[|a|..];
    assert ImageLines(codec, b) == ImageLines(codec, a) + ImageLines(codec, rest);
    ConcatAppend(ImageLines(codec, a), ImageLines(codec, rest));
  }

  lemma HeadExtends(
    codec: Codec, exportId: string, startedAt: string, images: seq<map<string, Json>>, data: map<string, Json>)
    ensures Concat(ImageLines(codec, images + [data]))
      == Concat(ImageLines(codec, images)) + Line(codec, ImageRecord(data))
    ensures Head(codec, exportId, startedAt, images + [data])
      == Head(codec, exportId, startedAt, images) + Line(codec, ImageRecord(data))
  {
    var line := Line(codec, ImageRecord(data));
    assert ImageLines(codec, images + [data]) == ImageLines(codec, images) + [line];
    ConcatAppend(ImageLines(codec, images), [line]);
    assert Concat([line]) == line by { assert [line][1..] == []; }
  }

  lemma ExportIsHeadAndEnd(codec: Codec, exportId: string, startedAt: string, images: seq<map<string, Json>>)
    ensures ExportBytes(codec, exportId, startedAt, images)
      == Head(codec, exportId, startedAt, images) + EndLine(codec, exportId, images)
  {
    var manifest, end := Line(codec, ManifestRecord(exportId, startedAt)), EndLine(codec, exportId, images);
    var lines := ImageLines(codec, images);
    assert ExportLines(codec, exportId, startedAt, images) == [manifest] + (lines + [end]);
    assert ([manifest] + (lines + [end]))[1..] == lines + [end];
    ConcatAppend(lines, [end]);
    assert Concat([end]) == end by { assert [end][1..] == []; }
  }

  /** The response of one export. `budget` writes succeed before the context or the connection fails; the failing write
      still delivers up to `torn` bytes, but never its whole line. `flushes` flushes succeed, one every 100 records. */
  class Exporter {
    const codec: Codec
    const exportId: string
    const startedAt: string
    const torn: nat
    var budget: nat
    var flushes: nat
    var output: Bytes
    var digested: Bytes
    var count: nat
    var started: bool
    ghost var emitted: seq<map<string, Json>>

    constructor (codec: Codec, exportId: string, startedAt: string, budget: nat, torn: nat, flushes: nat)
      ensures this.codec == codec && this.exportId == exportId && this.startedAt == startedAt
      ensures Intact() && emitted == []
    {
      this.codec, this.exportId, this.startedAt := codec, exportId, startedAt;
      this.budget, this.torn, this.flushes := budget, torn, flushes;
      output, digested, count, started := [], [], 0, false;
      emitted := [];
    }

    /** Nothing has failed: the output, the digest and the count all describe the emitted records. */
    ghost predicate Intact()
      reads this
    {
      && output == (if started then Head(codec, exportId, startedAt, emitted) else [])
      && digested == Concat(ImageLines(codec, emitted))
      && count == |emitted|
      && (!started ==> emitted == [])
    }

    method Write(line: Bytes) returns (ok: bool)
      requires line != []
      modifies this`output, this`budget
      ensures ok ==> output == old(output) + line
      ensures !ok ==> old(output) <= output < old(output) + line
    {
      if budget == 0 {
        output := output + line[..if torn < |line| then torn else |line| - 1];
        return false;
      }
      budget := budget - 1;
      output := output + line;
      return true;
    }

    method Start() returns (ok: bool)
      requires Intact()
      modifies this`output, this`budget, this`started
      ensures ok ==> Intact() && started
      ensures !ok ==> output < Head(codec, exportId, startedAt, emitted)
    {
      if started { return true; }
      started := true;
      ok := Write(Line(codec, ManifestRecord(exportId, startedAt)));
    }

    /** A record that fails leaves at most its complete line: a failing flush follows the write. */
    method Emit(data: map<string, Json>) returns (ok: bool)
      requires Intact()
      modifies this`output, this`budget, this`flushes, this`started, this`digested, this`count, this`emitted
      ensures ok ==> Intact() && emitted == old(emitted) + [data]
      ensures !ok ==> output <= Head(codec, exportId, startedAt, old(emitted) + [data])
    {
      HeadExtends(codec, exportId, startedAt, emitted, data);
      ok := Start();
      if !ok { return; }
      var line := Line(codec, ImageRecord(data));
      ok := Write(line);
      if !ok { return; }
      digested := digested + line;
      count := count + 1;
      emitted := emitted + [data];
      if count % 100 == 0 {
        if flushes == 0 { return false; }
        flushes := flushes - 1;
      }
    }

    method End() returns (ok: bool)
      requires Intact() && started
      modifies this`output, this`budget
      ensures ok ==> output == ExportBytes(codec, exportId, startedAt, emitted)
      ensures !ok ==> output < ExportBytes(codec, exportId, startedAt, emitted)
    {
      ExportIsHeadAndEnd(codec, exportId, startedAt, emitted);
      ok := Write(Line(codec, EndRecord(exportId, count, codec.digest(digested))));
    }
  }

  /** The body of the row loop: pair the tag arrays and emit the record. */
  method ExportRow(row: ImageRow, exporter: Exporter) returns (ok: bool)
    requires Even(row) && exporter.Intact()
    modifies exporter
    ensures ok ==> exporter.Intact() && exporter.emitted == old(exporter.emitted) + [RowFields(row)]
    ensures !ok ==> exporter.output <= Head(exporter.codec, exporter.exportId, exporter.startedAt, 
      old(exporter.emitted) + [RowFields(row)])
  {
    ghost var all := ResponseOf(row).tags;
    var tags: seq<Tag> := [];
    var t := 0;
    while t < |row.tagIds|
      invariant 0 <= t <= |row.tagIds| && tags == all[..t]
    {
      assert all[..t + 1] == all[..t] + [all[t]];
      tags := tags + [Tag(row.tagIds[t], row.tagNames[t])];
      t := t + 1;
    }
    assert tags == all;
    ok := exporter.Emit(ToFields(Response(row.id, row.view, row.key, row.createdAt, row.uploader, tags)));
  }

  lemma PageRows(s: DbSnapshot, after: nat, limit: nat)
    ensures var ids, rows := Keyset.Page(LiveIds(s), after, limit), ListSyncImages(s, after, limit);
      && |rows| == |ids| && (forall k :: 0 <= k < |rows| ==> Even(rows[k]) && rows[k].id == ids[k])
      && Each(RowFields, rows) == RecordsFor(s, ids)
  {
    var ids, rows := Keyset.Page(LiveIds(s), after, limit), ListSyncImages(s, after, limit);
    forall k | 0 <= k < |ids| ensures rows[k] == RowOf(s, ids[k]) && RowFields(rows[k]) == RecordOf(s, ids[k]) {
      assert ids[k] in ids;
    }
  }

  lemma NextRecord(
    codec: Codec, exportId: string, startedAt: string,
    before: seq<map<string, Json>>, records: seq<map<string, Json>>, k: nat)
    requires k < |records|
    ensures before + records[..k + 1] == before + records[..k] + [records[k]]
    ensures Head(codec, exportId, startedAt, before + records[..k + 1])
      <= Head(codec, exportId, startedAt, before + records)
  {
    HeadGrows(codec, exportId, startedAt, before + records[..k + 1], before + records);
  }

  method ExportPage(rows: seq<ImageRow>, exporter: Exporter) returns (ok: bool)
    requires (forall k :: 0 <= k < |rows| ==> Even(rows[k])) && exporter.Intact()
    modifies exporter
    ensures ok ==> exporter.Intact() && exporter.emitted == old(exporter.emitted) + Each(RowFields, rows)
    ensures !ok ==> exporter.output <= Head(exporter.codec, exporter.exportId, exporter.startedAt, 
      old(exporter.emitted) + Each(RowFields, rows))
  {
    ghost var before, records := exporter.emitted, Each(RowFields, rows);
    var k := 0;
    while k < |rows|
      invariant 0 <= k <= |rows| && exporter.Intact()
      invariant exporter.emitted == before + records[..k]
    {
      NextRecord(exporter.codec, exporter.exportId, exporter.startedAt, before, records, k);
      var written := ExportRow(rows[k], exporter);
      if !written {
        return false;
      }
      k := k + 1;
    }
    return true;
  }

  lemma RecordsAppend(s: DbSnapshot, a: seq<nat>, b: seq<nat>)
    ensures RecordsFor(s, a + b) == RecordsFor(s, a) + RecordsFor(s, b)
  {
    EachAppend(Recorder(s), a, b);
  }

  lemma HeadOfPrefix(s: DbSnapshot, codec: Codec, exportId: string, startedAt: string, ids: seq<nat>)
    requires ids <= Keyset.Sorted(LiveIds(s))
    ensures Head(codec, exportId, startedAt, RecordsFor(s, ids)) <= Head(codec, exportId, startedAt, AllRecords(s))
  {
    var all := Keyset.Sorted(LiveIds(s));
    assert all == ids + all[|ids|..];
    RecordsAppend(s, ids, all[|ids|..]);
    HeadGrows(codec, exportId, startedAt, RecordsFor(s, ids), AllRecords(s));
  }

  /** What one page contributes: the next records, and either the end of the list or the next cursor. */
  lemma PageStep(s: DbSnapshot, done: seq<nat>, after: nat, ids: seq<nat>, rows: seq<ImageRow>)
    requires Keyset.Reached(LiveIds(s), done, after)
    requires ids == Keyset.Page(LiveIds(s), after, PAGE) && rows == ListSyncImages(s, after, PAGE)
    ensures |rows| == |ids| <= PAGE && (forall k :: 0 <= k < |rows| ==> Even(rows[k]))
    ensures Each(RowFields, rows) == RecordsFor(s, ids)
    ensures RecordsFor(s, done + ids) == RecordsFor(s, done) + RecordsFor(s, ids)
    ensures done + ids <= Keyset.Sorted(LiveIds(s))
    ensures |ids| < PAGE ==> done + ids == Keyset.Sorted(LiveIds(s))
    ensures |ids| == PAGE ==> Keyset.Reached(LiveIds(s), done + ids, rows[PAGE - 1].id)
  {
    PageRows(s, after, PAGE);
    Keyset.PageAdvances(LiveIds(s), done, after, PAGE);
    RecordsAppend(s, done, ids);
  }

  /** After `pages` full pages the ids up to `after` have been emitted. */
  ghost predicate Streamed(s: DbSnapshot, done: seq<nat>, after: nat, pages: nat) {
    Keyset.Reached(LiveIds(s), done, after) && |done| == PAGE * pages <= |LiveIds(s)|
  }

  lemma NextPage(s: DbSnapshot, done: seq<nat>, after: nat, pages: nat) returns (ids: seq<nat>)
    requires Streamed(s, done, after, pages)
    ensures var rows := ListSyncImages(s, after, PAGE);
      && |rows| <= PAGE && (forall k :: 0 <= k < |rows| ==> Even(rows[k]))
      && RecordsFor(s, done + ids) == RecordsFor(s, done) + Each(RowFields, rows)
      && done + ids <= Keyset.Sorted(LiveIds(s))
      && (|rows| < PAGE ==> done + ids == Keyset.Sorted(LiveIds(s)) && pages + 1 == |LiveIds(s)| / PAGE + 1)
      && (|rows| == PAGE ==> Streamed(s, done + ids, rows[PAGE - 1].id, pages + 1))
  {
    ids := Keyset.Page(LiveIds(s), after, PAGE);
    PageStep(s, done, after, ids, ListSyncImages(s, after, PAGE));
  }

  lemma StreamStarts(s: DbSnapshot)
    requires 0 !in LiveIds(s)
    ensures Streamed(s, [], 0, 0)
  {
    Keyset.ReachedStart(LiveIds(s));
  }

  /** One turn of the loop: a page is read and its rows are emitted. */
  method StreamPage(s: DbSnapshot, after: nat, exporter: Exporter, ghost done: seq<nat>, ghost pages: nat)
    returns (ok: bool, rows: seq<ImageRow>, ghost done': seq<nat>)
    requires Streamed(s, done, after, pages) && exporter.Intact() && exporter.emitted == RecordsFor(s, done)
    modifies exporter
    ensures |rows| <= PAGE
    ensures |rows| == PAGE ==> Streamed(s, done', rows[PAGE - 1].id, pages + 1)
    ensures |rows| < PAGE ==> RecordsFor(s, done') == AllRecords(s) && pages + 1 == |LiveIds(s)| / PAGE + 1
    ensures ok ==> exporter.Intact() && exporter.emitted == RecordsFor(s, done')
    ensures !ok ==> exporter.output <= Head(exporter.codec, exporter.exportId, exporter.startedAt, AllRecords(s))
  {
    rows := ListSyncImages(s, after, PAGE);
    ghost var ids := NextPage(s, done, after, pages);
    done' := done + ids;
    HeadOfPrefix(s, exporter.codec, exporter.exportId, exporter.startedAt, done');
    ok := ExportPage(rows, exporter);
  }

  /** streamCatalog: page after page until a short one; `queries` page reads succeed. */
  method StreamCatalog(s: DbSnapshot, exporter: Exporter, queries: nat) returns (ok: bool, pages: nat)
    requires 0 !in LiveIds(s) && exporter.Intact() && exporter.emitted == []
    modifies exporter
    ensures ok ==> exporter.Intact() && exporter.emitted == AllRecords(s) && pages == |LiveIds(s)| / 1000 + 1
    ensures !ok ==> exporter.output <= Head(exporter.codec, exporter.exportId, exporter.startedAt, AllRecords(s))
  {
    ghost var done: seq<nat> := [];
    var after: nat := 0;
    pages := 0;
    StreamStarts(s);
    while true
      invariant Streamed(s, done, after, pages)
      invariant exporter.Intact() && exporter.emitted == RecordsFor(s, done)
      decreases |LiveIds(s)| - PAGE * pages
    {
      HeadOfPrefix(s, exporter.codec, exporter.exportId, exporter.startedAt, done);
      if pages == queries {
        return false, pages;
      }
      var rows: seq<ImageRow>;
      ok, rows, done := StreamPage(s, after, exporter, done, pages);
      if !ok {
        return false, pages;
      }
      pages := pages + 1;
      if |rows| < PAGE {
        return true, pages;
      }
      after := rows[|rows| - 1].id;
    }
  }

  /** The export handler: every outcome is the whole export or a proper prefix of it. */
  method FullSync(s: DbSnapshot, exporter: Exporter, queries: nat) returns (completed: bool)
    requires 0 !in LiveIds(s) && exporter.Intact() && exporter.emitted == []
    modifies exporter
    ensures completed ==>
      exporter.output == ExportBytes(exporter.codec, exporter.exportId, exporter.startedAt, AllRecords(s))
    ensures !completed ==>
      exporter.output < ExportBytes(exporter.codec, exporter.exportId, exporter.startedAt, AllRecords(s))
  {
    var pages: nat;
    completed, pages := StreamCatalog(s, exporter, queries);
    ExportIsHeadAndEnd(exporter.codec, exporter.exportId, exporter.startedAt, AllRecords(s));
    if completed { completed := exporter.Start(); }
    if completed { completed := exporter.End(); }
  }

  /** Main result: whatever part of a response arrives, the verifier accepts it only if it is the whole export. */
  lemma AcceptedMeansWhole(codec: Codec, exportId: string, startedAt: string, s: DbSnapshot, received: Bytes)
    requires FaithfulExport(codec, exportId, startedAt, AllRecords(s))
    requires received <= ExportBytes(codec, exportId, startedAt, AllRecords(s))
    ensures Accepted(codec, Lines(received)) <==> received == ExportBytes(codec, exportId, startedAt, AllRecords(s))
  {
    if received == ExportBytes(codec, exportId, startedAt, AllRecords(s)) {
      CompletedExportAccepted(codec, exportId, startedAt, AllRecords(s));
    } else {
      TruncationRejected(codec, exportId, startedAt, AllRecords(s), received);
    }
  }
}
