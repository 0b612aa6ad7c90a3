/** The differences an update event carries, and what a subscriber can rebuild from them. */
module Changes {
  import opened Options
  import opened Catalog

  datatype Data = Data(text: string, rating: Rating, tags: seq<string>)

  datatype Value = TextValue(text: string) | RatingValue(rating: Rating) | TagsValue(tags: seq<string>)

  datatype ValueChange = ValueChange(before: Value, after: Value)

  type Diff = map<string, ValueChange>

  // ----- sorted tags -----

  /** Go compares strings byte by byte. */
  predicate Leq(a: string, b: string) {
    a == "" || (b != "" && (a[0] < b[0] || (a[0] == b[0] && Leq(a[1..], b[1..]))))
  }

  lemma {:induction false} LeqIsOrder(a: string, b: string, c: string)
    ensures Leq(a, b) || Leq(b, a)
    ensures Leq(a, b) && Leq(b, a) ==> a == b
    ensures Leq(a, b) && Leq(b, c) ==> Leq(a, c)
  {
    if a != "" && b != "" && a[0] == b[0] {
      LeqIsOrder(a[1..], b[1..], if c == "" then "" else c[1..]);
      assert a == [a[0]] + a[1..] && b == [b[0]] + b[1..];
    }
  }

  ghost predicate Sorted(s: seq<string>) {
    forall i, j :: 0 <= i < j < |s| ==> Leq(s[i], s[j])
  }

  function Insert(tag: string, sorted: seq<string>): seq<string> {
    if sorted == [] || Leq(tag, sorted[0]) then [tag] + sorted else [sorted[0]] + Insert(tag, sorted[1..])
  }

  function SortTags(tags: seq<string>): seq<string> {
    if tags == [] then [] else Insert(tags[0], SortTags(tags[1..]))
  }

  lemma {:induction false} InsertCounts(tag: string, sorted: seq<string>)
    ensures multiset(Insert(tag, sorted)) == multiset(sorted) + multiset{tag}
  {
    if sorted != [] && !Leq(tag, sorted[0]) {
      InsertCounts(tag, sorted[1..]);
      assert sorted == [sorted[0]] + sorted[1..];
    }
  }

  lemma FirstThenSorted(first: string, rest: seq<string>)
    requires Sorted(rest) && forall x :: x in rest ==> Leq(first, x)
    ensures Sorted([first] + rest)
  {
  }

  lemma FirstIsLeast(sorted: seq<string>, x: string)
    requires Sorted(sorted) && x in sorted
    ensures Leq(sorted[0], x)
  {
    LeqIsOrder(sorted[0], sorted[0], sorted[0]);
  }

  lemma {:induction false} InsertSorts(tag: string, sorted: seq<string>)
    requires Sorted(sorted)
    ensures Sorted(Insert(tag, sorted))
  {
    if sorted == [] {
    } else if Leq(tag, sorted[0]) {
      forall x | x in sorted ensures Leq(tag, x) {
        FirstIsLeast(sorted, x);
        LeqIsOrder(tag, sorted[0], x);
      }
      FirstThenSorted(tag, sorted);
    } else {
      InsertSorts(tag, sorted[1..]);
      InsertCounts(tag, sorted[1..]);
      LeqIsOrder(tag, sorted[0], sorted[0]);
      forall x | x in Insert(tag, sorted[1..]) ensures Leq(sorted[0], x) {
        InsertedFrom(tag, sorted[1..], x);
        if x in sorted[1..] { FirstIsLeast(sorted, x); }
      }
      FirstThenSorted(sorted[0], Insert(tag, sorted[1..]));
    }
  }

  lemma InsertedFrom(tag: string, sorted: seq<string>, x: string)
    requires x in Insert(tag, sorted)
    ensures x == tag || x in sorted
  {
    InsertCounts(tag, sorted);
    assert x in multiset(Insert(tag, sorted));
    if x != tag { assert x in multiset(sorted); }
  }

  lemma {:induction false} SortTagsSorts(tags: seq<string>)
    ensures Sorted(SortTags(tags)) && multiset(SortTags(tags)) == multiset(tags)
  {
    if tags != [] {
      SortTagsSorts(tags[1..]);
      InsertSorts(tags[0], SortTags(tags[1..]));
      InsertCounts(tags[0], SortTags(tags[1..]));
      assert tags == [tags[0]] + tags[1..];
    }
  }

  lemma SameHead(a: seq<string>, b: seq<string>)
    requires Sorted(a) && Sorted(b) && multiset(a) == multiset(b) && a != []
    ensures b != [] && a[0] == b[0]
  {
    assert a[0] in multiset(b);
    assert b[0] in multiset(a);
    LeqIsOrder(a[0], b[0], a[0]);
    LeqIsOrder(a[0], a[0], a[0]);
  }

  lemma TailOf(s: seq<string>)
    requires s != []
    ensures multiset(s[1..]) == multiset(s) - multiset{s[0]}
  {
    assert s == [s[0]] + s[1..];
  }

  /** Any algorithm that sorts gives this result. */
  lemma {:induction false} SortedIsUnique(a: seq<string>, b: seq<string>)
    requires Sorted(a) && Sorted(b) && multiset(a) == multiset(b)
    ensures a == b
  {
    if a == [] {
      assert |multiset(b)| == 0;
    } else {
      SameHead(a, b);
      TailOf(a);
      TailOf(b);
      SortedIsUnique(a[1..], b[1..]);
      assert a == [a[0]] + a[1..] && b == [b[0]] + b[1..];
    }
  }

  lemma SortTagsForgetsOrder(a: seq<string>, b: seq<string>)
    ensures SortTags(a) == SortTags(b) <==> multiset(a) == multiset(b)
  {
    SortTagsSorts(a);
    SortTagsSorts(b);
    if multiset(a) == multiset(b) { SortedIsUnique(SortTags(a), SortTags(b)); }
  }

  // ----- comparing -----

  const FIELDS: set<string> := {"text", "rating", "tags"}

  function Field(data: Data, name: string): Value
    requires name in FIELDS
  {
    if name == "text" then TextValue(data.text)
    else if name == "rating" then RatingValue(data.rating)
    else TagsValue(SortTags(data.tags))
  }

  /** Exactly the fields that differ, each with both of its values. */
  function Differences(before: Data, current: Data): Diff {
    map name | name in FIELDS && Field(before, name) != Field(current, name) ::
      ValueChange(Field(before, name), Field(current, name))
  }

  /** Exactly the fields that differ, each with both of its values; tags are compared up to order and listed sorted. */
  lemma DifferencesSay(before: Data, current: Data) returns (changes: Diff)
    ensures changes == Differences(before, current)
    ensures changes.Keys <= {"text", "rating", "tags"}
    ensures before.text == current.text <==> "text" !in changes
    ensures "text" in changes ==> changes["text"] == ValueChange(TextValue(before.text), TextValue(current.text))
    ensures before.rating == current.rating <==> "rating" !in changes
    ensures "rating" in changes ==>
      changes["rating"] == ValueChange(RatingValue(before.rating), RatingValue(current.rating))
    ensures multiset(before.tags) == multiset(current.tags) <==> "tags" !in changes
    ensures "tags" in changes ==>
      var change := changes["tags"];
      && change.before.TagsValue? && Sorted(change.before.tags) && multiset(change.before.tags) == multiset(before.tags)
      && change.after.TagsValue? && Sorted(change.after.tags) && multiset(change.after.tags) == multiset(current.tags)
  {
    SortTagsForgetsOrder(before.tags, current.tags);
    SortTagsSorts(before.tags);
    SortTagsSorts(current.tags);
    changes := Differences(before, current);
    assert "text" in FIELDS && "rating" in FIELDS && "tags" in FIELDS;
  }

  method Compare(before: Data, current: Data) returns (changes: Diff)
    ensures changes == Differences(before, current)
  {
    changes := map[];
    if before.text != current.text {
      changes := changes["text" := ValueChange(TextValue(before.text), TextValue(current.text))];
    }
    if before.rating != current.rating {
      changes := changes["rating" := ValueChange(RatingValue(before.rating), RatingValue(current.rating))];
    }
    var oldTags, newTags := SortTags(before.tags), SortTags(current.tags);
    if oldTags != newTags {
      changes := changes["tags" := ValueChange(TagsValue(oldTags), TagsValue(newTags))];
    }
  }

  // ----- applying -----

  function Put(data: Data, name: string, value: Value): Data {
    if name == "text" && value.TextValue? then data.(text := value.text)
    else if name == "rating" && value.RatingValue? then data.(rating := value.rating)
    else if name == "tags" && value.TagsValue? then data.(tags := value.tags)
    else data
  }

  function Apply(data: Data, changes: Diff): Data {
    var a := if "text" in changes then Put(data, "text", changes["text"].after) else data;
    var b := if "rating" in changes then Put(a, "rating", changes["rating"].after) else a;
    if "tags" in changes then Put(b, "tags", changes["tags"].after) else b
  }

  function Reverse(changes: Diff): Diff {
    map name | name in changes :: ValueChange(changes[name].after, changes[name].before)
  }

  /** Equal up to the order of the tags. */
  predicate Same(a: Data, b: Data) {
    a.text == b.text && a.rating == b.rating && multiset(a.tags) == multiset(b.tags)
  }

  /** Main result: the new values turn any copy of the old state into the new one. */
  lemma ApplyRestores(copy: Data, before: Data, current: Data)
    requires Same(copy, before)
    ensures Same(Apply(copy, Differences(before, current)), current)
  {
    SortTagsForgetsOrder(before.tags, current.tags);
    SortTagsSorts(current.tags);
  }

  lemma ReverseSwaps(before: Data, current: Data)
    ensures Reverse(Differences(before, current)) == Differences(current, before)
  {
  }

  /** The old values lead back. */
  lemma ReverseRestores(copy: Data, before: Data, current: Data)
    requires Same(copy, current)
    ensures Same(Apply(copy, Reverse(Differences(before, current))), before)
  {
    ReverseSwaps(before, current);
    ApplyRestores(copy, current, before);
  }

  lemma EmptyMeansSame(before: Data, current: Data)
    ensures Differences(before, current) == map[] <==> Same(before, current)
  {
    SortTagsForgetsOrder(before.tags, current.tags);
    var changes := Differences(before, current);
    assert "text" in FIELDS && "rating" in FIELDS && "tags" in FIELDS;
    assert changes == map[] <==> "text" !in changes && "rating" !in changes && "tags" !in changes;
  }

  // ----- along a version history -----

  /** `order` is how the database lists the tags of a version: each of them once. */
  ghost predicate Orders(order: set<string> -> seq<string>) {
    forall tags :: multiset(order(tags)) == multiset(tags)
  }

  function DataOf(content: Content, order: set<string> -> seq<string>): Data {
    Data(content.text, content.rating, order(content.tags))
  }

  /** GetPreviousImageVersionForWebhook: the highest version number below the given one. */
  function Previous(versions: seq<Version>, number: int): Option<Version> {
    if versions == [] then None
    else
      var rest, last := Previous(versions[..|versions| - 1], number), versions[|versions| - 1];
      if last.number < number && (rest.None? || rest.value.number < last.number) then Some(last) else rest
  }

  lemma {:induction false} PreviousIsPredecessor(versions: seq<Version>, first: int, number: int)
    requires forall k :: 0 <= k < |versions| ==> versions[k].number == first + k
    ensures Previous(versions, number) ==
      if number <= first || versions == [] then None
      else if number - first <= |versions| then Some(versions[number - first - 1]) else Some(versions[|versions| - 1])
  {
    if versions != [] {
      PreviousIsPredecessor(versions[..|versions| - 1], first, number);
    }
  }

  /** What a subscriber holds that takes the first version as it is and applies every later update event. */
  function Followed(versions: seq<Version>, upTo: nat, order: set<string> -> seq<string>): Data
    requires 0 < upTo <= |versions|
  {
    if upTo == 1 then DataOf(versions[0].content, order)
    else
      var version := versions[upTo - 1];
      var previous := Previous(versions, version.number);
      var held := Followed(versions, upTo - 1, order);
      if previous.None? then held
      else Apply(held, Differences(DataOf(previous.value.content, order), DataOf(version.content, order)))
  }

  lemma {:induction false} FollowedIsThere(
    versions: seq<Version>, first: int, upTo: nat, order: set<string> -> seq<string>)
    requires forall k :: 0 <= k < |versions| ==> versions[k].number == first + k
    requires 0 < upTo <= |versions|
    ensures Same(Followed(versions, upTo, order), DataOf(versions[upTo - 1].content, order))
  {
    if upTo > 1 {
      var earlier, version := versions[upTo - 2], versions[upTo - 1];
      PreviousIsPredecessor(versions, first, version.number);
      FollowedIsThere(versions, first, upTo - 1, order);
      ApplyRestores(
        Followed(versions, upTo - 1, order), DataOf(earlier.content, order), DataOf(version.content, order));
    }
  }

  /** Main result: in every reachable catalogue the changes along an image's history lead from its first version to its
      current one, whatever order the tags are listed in. */
  lemma HistoryIsRebuilt(db: Store, i: nat, order: set<string> -> seq<string>)
    requires StoreInv(db) && i in db.images && CurrentVersion(db.images[i]).Some? && Orders(order)
    ensures var held := Followed(db.images[i].versions, |db.images[i].versions|, order);
      var current := CurrentVersion(db.images[i]).value.content;
      held.text == current.text && held.rating == current.rating && multiset(held.tags) == multiset(current.tags)
  {
    var img := db.images[i];
    assert ImageInv(db, i);
    CurrentIsLast(db.firstNumber, db.nextVersion, img);
    FollowedIsThere(img.versions, db.firstNumber, |img.versions|, order);
  }
}
