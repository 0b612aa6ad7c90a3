/** Replication end to end: the follower's copy is what it reads back from the bytes of an export it accepted. */
module Replication {
  import opened Options
  import opened Catalog
  import opened IndexProtocol
  import opened Tags
  import opened Ndjson
  import opened CatalogExport
  import opened Views
  import opened Replica
  import Keyset

  // ----- reading an image record -----

  function NumberOf(j: Json): int {
    if j.Number? then j.value.Floor else 0
  }

  function IdOf(j: Json): nat {
    if NumberOf(j) < 0 then 0 else NumberOf(j)
  }

  function TextOf(j: Json): string {
    if j.Text? then j.text else ""
  }

  function RatingOf(text: string): Rating {
    if text == "violent" then RatingViolent else if text == "moderate" then RatingModerate else RatingNone
  }

  function TagsIn(j: Json): set<string> {
    if j.List? then set k | 0 <= k < |j.items| && j.items[k].Object? :: TextOf(Get(j.items[k].fields, "name")) else {}
  }

  function ReadImage(fields: map<string, Json>): (nat, View) {
    (IdOf(Get(fields, "id")),
     View(IdOf(Get(fields, "currentVersionId")), NumberOf(Get(fields, "version")),
          Content(TextOf(Get(fields, "text")), RatingOf(TextOf(Get(fields, "rating"))), TagsIn(Get(fields, "tags"))),
          TextOf(Get(fields, "imageUrl"))))
  }

  function ReadLine(codec: Codec, line: Bytes): Option<(nat, View)> {
    match codec.decode(line)
    case Some(Object(record)) =>
      if Get(record, "data").Object? then Some(ReadImage(Get(record, "data").fields)) else None
    case _ => None
  }

  /** The fresh generation a file of image lines is imported into. */
  function Import(codec: Codec, lines: seq<Bytes>): map<nat, View> {
    if lines == [] then map[]
    else
      var copy := Import(codec, lines[..|lines| - 1]);
      match ReadLine(codec, lines[|lines| - 1])
      case Some(image) => copy[image.0 := image.1]
      case None => copy
  }

  // ----- what was written is read back -----

  lemma TagsReadBack(tags: seq<Tag>)
    ensures TagsIn(TagList(tags)) == TagSet(tags)
  {
    var j := TagList(tags);
    forall k | 0 <= k < |tags| ensures TextOf(Get(j.items[k].fields, "name")) == tags[k].name {}
    forall name | name in TagSet(tags) ensures name in TagsIn(j) {
      var k :| 0 <= k < |tags| && tags[k].name == name;
      assert j.items[k].Object?;
    }
  }

  lemma FieldsReadBack(r: Response)
    ensures ReadImage(ToFields(r)) == (r.id, r.view.(content := r.view.content.(tags := TagSet(r.tags))))
  {
    TagsReadBack(r.tags);
  }

  lemma RecordReadsBack(s: DbSnapshot, i: nat)
    requires StoreInv(s.db) && TagsInv(s.rows, s.db) && i in LiveIds(s)
    ensures ReadImage(RecordOf(s, i)) == (i, LiveView(s.db)[i])
  {
    TagsComplete(s, i);
    FieldsReadBack(ResponseFor(s, i));
  }

  function Part(view: map<nat, View>, ids: seq<nat>): map<nat, View> {
    map i | i in ids && i in view :: view[i]
  }

  lemma LineReadsBack(codec: Codec, data: map<string, Json>)
    requires Faithful(codec, ImageRecord(data))
    ensures ReadLine(codec, Line(codec, ImageRecord(data))) == Some(ReadImage(data))
  {
  }

  lemma ImportLast(codec: Codec, lines: seq<Bytes>, line: Bytes, image: (nat, View))
    requires ReadLine(codec, line) == Some(image)
    ensures Import(codec, lines + [line]) == Import(codec, lines)[image.0 := image.1]
  {
    assert (lines + [line])[..|lines|] == lines;
  }

  lemma LineAppends(codec: Codec, images: seq<map<string, Json>>, data: map<string, Json>)
    ensures ImageLines(codec, images + [data]) == ImageLines(codec, images) + [Line(codec, ImageRecord(data))]
  {
  }

  lemma OneRecord<T>(record: nat -> T, i: nat)
    ensures Each(record, [i]) == [record(i)]
  {
  }

  lemma RecordsLast(s: DbSnapshot, ids: seq<nat>)
    requires ids != []
    ensures RecordsFor(s, ids) == RecordsFor(s, ids[..|ids| - 1]) + [RecordOf(s, ids[|ids| - 1])]
  {
    var last := |ids| - 1;
    assert ids[..last] + [ids[last]] == ids;
    RecordsAppend(s, ids[..last], [ids[last]]);
    OneRecord(Recorder(s), ids[last]);
  }

  lemma LinesLast(codec: Codec, s: DbSnapshot, ids: seq<nat>)
    requires ids != []
    ensures var last := |ids| - 1;
      ImageLines(codec, RecordsFor(s, ids))
        == ImageLines(codec, RecordsFor(s, ids[..last])) + [Line(codec, ImageRecord(RecordOf(s, ids[last])))]
  {
    RecordsLast(s, ids);
    LineAppends(codec, RecordsFor(s, ids[..|ids| - 1]), RecordOf(s, ids[|ids| - 1]));
  }

  lemma {:induction false} ImportReadsBack(codec: Codec, s: DbSnapshot, ids: seq<nat>)
    requires StoreInv(s.db) && TagsInv(s.rows, s.db)
    requires forall i :: i in ids ==> i in LiveIds(s) && Faithful(codec, ImageRecord(RecordOf(s, i)))
    ensures Import(codec, ImageLines(codec, RecordsFor(s, ids))) == Part(LiveView(s.db), ids)
    decreases |ids|
  {
    if ids != [] {
      var head, i := ids[..|ids| - 1], ids[|ids| - 1];
      ImportReadsBack(codec, s, head);
      LinesLast(codec, s, ids);
      LineReadsBack(codec, RecordOf(s, i));
      RecordReadsBack(s, i);
      var line := Line(codec, ImageRecord(RecordOf(s, i)));
      ImportLast(codec, ImageLines(codec, RecordsFor(s, head)), line, (i, LiveView(s.db)[i]));
      PartLast(LiveView(s.db), ids);
    }
  }

  lemma PartLast(view: map<nat, View>, ids: seq<nat>)
    requires ids != [] && ids[|ids| - 1] in view
    ensures var i := ids[|ids| - 1]; Part(view, ids) == Part(view, ids[..|ids| - 1])[i := view[i]]
  {
    var head, i := ids[..|ids| - 1], ids[|ids| - 1];
    assert forall j :: j in ids <==> j in head || j == i;
  }

  /** What copy_export leaves in the file of an accepted source. */
  function Copied(source: Bytes): Bytes
    requires |Lines(source)| >= 2
  {
    Concat(Lines(source)[1..|Lines(source)| - 1])
  }

  lemma FileLines(codec: Codec, exportId: string, startedAt: string, images: seq<map<string, Json>>)
    requires FaithfulExport(codec, exportId, startedAt, images)
    ensures Lines(Concat(ImageLines(codec, images))) == ImageLines(codec, images)
  {
    var lines := ImageLines(codec, images);
    forall k | 0 <= k < |lines| ensures OneLine(lines[k]) { assert Faithful(codec, ImageRecord(images[k])); }
    LinesOf(lines, []);
    assert Concat(lines) + [] == Concat(lines) && lines + Lines([]) == lines;
  }

  lemma WholeIsCopied(
    codec: Codec, exportId: string, startedAt: string, images: seq<map<string, Json>>, received: Bytes)
    requires FaithfulExport(codec, exportId, startedAt, images)
    requires received == ExportBytes(codec, exportId, startedAt, images)
    ensures |Lines(received)| >= 2 && Lines(Copied(received)) == ImageLines(codec, images)
  {
    CompletedExportAccepted(codec, exportId, startedAt, images);
    FileLines(codec, exportId, startedAt, images);
  }

  lemma RecordIsFaithful(codec: Codec, exportId: string, startedAt: string, s: DbSnapshot, ids: seq<nat>, i: nat)
    requires FaithfulExport(codec, exportId, startedAt, RecordsFor(s, ids)) && i in ids
    ensures Faithful(codec, ImageRecord(RecordOf(s, i)))
  {
    var k :| 0 <= k < |ids| && ids[k] == i;
    assert Faithful(codec, ImageRecord(RecordsFor(s, ids)[k]));
  }

  lemma PartOfAll(view: map<nat, View>, ids: seq<nat>)
    requires forall i :: i in view ==> i in ids
    ensures Part(view, ids) == view
  {
  }

  lemma AllRecordsReadBack(codec: Codec, exportId: string, startedAt: string, s: DbSnapshot, ids: seq<nat>)
    requires StoreInv(s.db) && TagsInv(s.rows, s.db) && FaithfulExport(codec, exportId, startedAt, RecordsFor(s, ids))
    requires forall i :: i in ids <==> i in LiveIds(s)
    ensures Import(codec, ImageLines(codec, RecordsFor(s, ids))) == LiveView(s.db)
  {
    forall i | i in ids ensures Faithful(codec, ImageRecord(RecordOf(s, i))) {
      RecordIsFaithful(codec, exportId, startedAt, s, ids, i);
    }
    ImportReadsBack(codec, s, ids);
    PartOfAll(LiveView(s.db), ids);
  }

  /** Main result: whatever bytes of an export arrive, if the downloader accepts them its file reads back as exactly
      the live images of the snapshot at their current versions, tags included. */
  lemma AcceptedExportIsTheCatalogue(codec: Codec, exportId: string, startedAt: string, s: DbSnapshot, received: Bytes)
    requires StoreInv(s.db) && TagsInv(s.rows, s.db) && FaithfulExport(codec, exportId, startedAt, AllRecords(s))
    requires received <= ExportBytes(codec, exportId, startedAt, AllRecords(s)) && Accepted(codec, Lines(received))
    ensures Import(codec, Lines(Copied(received))) == LiveView(s.db)
  {
    AcceptedMeansWhole(codec, exportId, startedAt, s, received);
    WholeIsCopied(codec, exportId, startedAt, AllRecords(s), received);
    AllRecordsReadBack(codec, exportId, startedAt, s, Keyset.Sorted(LiveIds(s)));
  }

  // ----- the whole system -----

  datatype Deployment = Deployment(system: System, rows: TagRows)

  /** `names` are the tags of an upload or edit in the order of the request. A download takes its snapshot here and
      brings `received`; what happens while it runs follows as further acts. */
  datatype Act =
    | Moved(move: Move, names: seq<string>)
    | Downloaded(codec: Codec, exportId: string, startedAt: string, details: Details, received: Bytes)

  /** A download is any prefix of the export of this moment; the copy comes from nowhere else. */
  ghost predicate Allowed(d: Deployment, act: Act) {
    match act
    case Moved(move, names) => !move.Exported? && (move.Catalogue? ==> Names(d.system.world, move.event, names))
    case Downloaded(codec, exportId, startedAt, details, received) =>
      var records := AllRecords(DbSnapshot(d.system.world.db, d.rows, details));
      && FaithfulExport(codec, exportId, startedAt, records)
      && received <= ExportBytes(codec, exportId, startedAt, records)
  }

  ghost function Perform(d: Deployment, act: Act): Deployment {
    match act
    case Moved(move, names) =>
      Deployment(Advance(d.system, move),
        if move.Catalogue? then TagStep(d.rows, d.system.world, move.event, names) else d.rows)
    case Downloaded(codec, _, _, _, received) =>
      if d.system.follower.phase.Journaling? && Accepted(codec, Lines(received))
      then
        var phase := Exporting(Import(codec, Lines(Copied(received))));
        d.(system := d.system.(follower := d.system.follower.(phase := phase)))
      else d
  }

  ghost function Performed(d: Deployment, acts: seq<Act>): Deployment
    decreases |acts|
  {
    if acts == [] then d else Performed(Perform(d, acts[0]), acts[1..])
  }

  ghost predicate AllAllowed(d: Deployment, acts: seq<Act>)
    decreases |acts|
  {
    acts == [] || (Allowed(d, acts[0]) && AllAllowed(Perform(d, acts[0]), acts[1..]))
  }

  ghost predicate DeploymentInv(d: Deployment) {
    SystemInv(d.system) && TagsInv(d.rows, d.system.world.db)
  }

  lemma DownloadStarts(s: System, copy: map<nat, View>)
    requires s.follower.phase.Journaling? && copy == LiveView(s.world.db)
    ensures Advance(s, Exported) == s.(follower := s.follower.(phase := Exporting(copy)))
  {
  }

  /** An accepted download starts the follower from the catalogue as it is; any other changes nothing. */
  lemma DownloadIsExport(d: Deployment, act: Act)
    requires DeploymentInv(d) && Allowed(d, act) && act.Downloaded?
    ensures Perform(d, act) == d || Perform(d, act) == d.(system := Advance(d.system, Exported))
  {
    if d.system.follower.phase.Journaling? && Accepted(act.codec, Lines(act.received)) {
      AcceptedExportIsTheCatalogue(
        act.codec, act.exportId, act.startedAt, DbSnapshot(d.system.world.db, d.rows, act.details), act.received);
      DownloadStarts(d.system, Import(act.codec, Lines(Copied(act.received))));
    }
  }

  lemma OnlyCatalogueChangesRows(s: System, move: Move)
    ensures !move.Catalogue? ==> Advance(s, move).world == s.world
    ensures move.Catalogue? ==> Advance(s, move).world == Step(s.world, move.event)
  {
  }

  lemma PerformKeepsInv(d: Deployment, act: Act)
    requires DeploymentInv(d) && Allowed(d, act)
    ensures DeploymentInv(Perform(d, act))
  {
    match act
    case Downloaded(_, _, _, _, _) =>
      DownloadIsExport(d, act);
      AdvanceKeepsInv(d.system, Exported);
      OnlyCatalogueChangesRows(d.system, Exported);
    case Moved(move, names) =>
      AdvanceKeepsInv(d.system, move);
      OnlyCatalogueChangesRows(d.system, move);
      if move.Catalogue? { TagStepKeepsInv(d.rows, d.system.world, move.event, names); }
  }

  lemma {:induction false} PerformedKeepsInv(d: Deployment, acts: seq<Act>)
    requires DeploymentInv(d) && AllAllowed(d, acts)
    ensures DeploymentInv(Performed(d, acts))
    decreases |acts|
  {
    if acts != [] {
      PerformKeepsInv(d, acts[0]);
      PerformedKeepsInv(Perform(d, acts[0]), acts[1..]);
    }
  }

  /** Main result: a follower that bootstraps from the bytes of an accepted export, cut off and repeated as often as it
      takes, ends with exactly the live images at their current versions once tasks and journal have drained. */
  lemma ReplicaFromBytes(d0: Deployment, acts: seq<Act>)
    requires Subscribed(d0.system) && TagsInv(d0.rows, d0.system.world.db) && AllAllowed(d0, acts)
    requires Quiet(Performed(d0, acts).system)
    ensures Performed(d0, acts).system.follower.replica == LiveView(Performed(d0, acts).system.world.db)
  {
    PerformedKeepsInv(d0, acts);
    QuietIsCurrent(Performed(d0, acts).system);
  }
}
