/** The header contract: the backend renders custom headers, the worker parses them, the settings page checks names. */
module Headers {
  import opened Options
  import opened Text

  const MAX_HEADERS: nat := 32
  const MAX_VALUE_SIZE: nat := 8192
  const MAX_SIZE: nat := 65536

  // ----- names, three times -----

  predicate AsciiUpper(c: char) { 'A' <= c <= 'Z' }

  predicate AsciiLower(c: char) { 'a' <= c <= 'z' }

  predicate AsciiDigit(c: char) { '0' <= c <= '9' }

  function ToLower(c: char): char {
    if AsciiUpper(c) then (c as int + 32) as char else c
  }

  function ToUpper(c: char): char {
    if AsciiLower(c) then (c as int - 32) as char else c
  }

  function Lower(name: string): string {
    seq(|name|, k requires 0 <= k < |name| => ToLower(name[k]))
  }

  /** A token character, as the regular expressions of the worker and the settings page list them. */
  predicate TokenChar(c: char) {
    c in "!#$%&'*+.^_`|~" || AsciiDigit(c) || AsciiUpper(c) || AsciiLower(c) || c == '-'
  }

  predicate Token(name: string) {
    name != "" && forall k :: 0 <= k < |name| ==> TokenChar(name[k])
  }

  const RESERVED: set<string> := {
    "x-signature", "x-server-signature", "host", "content-length", "connection",
    "keep-alive", "te", "trailer", "transfer-encoding", "upgrade"
  }

  /** What parseHeaders asks of a name. */
  predicate WorkerName(name: string) {
    Token(name) && Lower(name) !in RESERVED && !("proxy-" <= Lower(name))
  }

  function WebhookHeaderNameError(name: string): Option<string> {
    if !Token(name) then Some("Enter a valid header name.")
    else if Lower(name) in RESERVED || "proxy-" <= Lower(name) then Some("This header is reserved.")
    else None
  }

  predicate ValidHeaderName(name: string) {
    name != "" && forall k :: 0 <= k < |name| ==>
      AsciiLower(name[k]) || AsciiUpper(name[k]) || AsciiDigit(name[k]) || name[k] in "!#$%&'*+-.^_`|~"
  }

  /** textproto.CanonicalMIMEHeaderKey on a valid name: upper case at the start and after a dash, lower case elsewhere.
      */
  function Canonical(name: string): string {
    seq(|name|, k requires 0 <= k < |name| =>
      if k == 0 || name[k - 1] == '-' then ToUpper(name[k]) else ToLower(name[k]))
  }

  predicate ReservedHeader(name: string) {
    || name in {"X-Signature", "X-Server-Signature", "Host", "Content-Length", "Connection",
                "Keep-Alive", "Te", "Trailer", "Transfer-Encoding", "Upgrade"}
    || "Proxy-" <= name
  }

  predicate BackendName(name: string) {
    ValidHeaderName(name) && !ReservedHeader(Canonical(name))
  }

  /** Canonical names and lower-case names identify the same spellings. */
  lemma CanonicalIdentifies(a: string, b: string)
    ensures Canonical(a) == Canonical(b) <==> Lower(a) == Lower(b)
  {
    if Lower(a) == Lower(b) {
      assert |Lower(a)| == |a| && |Lower(b)| == |b|;
      forall k | 0 <= k < |a| ensures Canonical(a)[k] == Canonical(b)[k] {
        assert Lower(a)[k] == Lower(b)[k];
        if k > 0 { assert Lower(a)[k - 1] == Lower(b)[k - 1]; }
      }
    }
    if Canonical(a) == Canonical(b) {
      assert |Canonical(a)| == |a| && |Canonical(b)| == |b|;
      forall k | 0 <= k < |a| ensures Lower(a)[k] == Lower(b)[k] {
        assert Canonical(a)[k] == Canonical(b)[k];
      }
    }
  }

  lemma Twin(name: string, canonical: string, lower: string)
    requires Canonical(canonical) == canonical && Lower(canonical) == lower
    ensures Canonical(name) == canonical <==> Lower(name) == lower
  {
    CanonicalIdentifies(name, canonical);
  }

  lemma ProxyTwin(name: string)
    ensures "Proxy-" <= Canonical(name) <==> "proxy-" <= Lower(name)
  {
    if |name| >= 6 {
      assert Canonical(name)[..6] == Canonical(name[..6]) && Lower(name)[..6] == Lower(name[..6]);
      assert Canonical("proxy-") == "Proxy-" && Lower("proxy-") == "proxy-";
      CanonicalIdentifies(name[..6], "proxy-");
    }
  }

  lemma SignatureAgrees(name: string)
    ensures Canonical(name) == "X-Server-Signature" <==> Lower(name) == "x-server-signature"
  {
    var canonical, lower := "X-Server-Signature", "x-server-signature";
    assert Lower(canonical) == lower by {
      assert forall k :: 0 <= k < |canonical| ==> ToLower(canonical[k]) == lower[k];
    }
    assert Canonical(canonical) == canonical by {
      assert canonical[1] == '-' && canonical[8] == '-';
    }
    Twin(name, canonical, lower);
  }

  lemma EncodingAgrees(name: string)
    ensures Canonical(name) == "Transfer-Encoding" <==>
      Lower(name) == "transfer-encoding"
  {
    var canonical, lower := "Transfer-Encoding", "transfer-encoding";
    assert Lower(canonical) == lower by {
      assert forall k :: 0 <= k < |canonical| ==> ToLower(canonical[k]) == lower[k];
    }
    assert Canonical(canonical) == canonical by {
      assert canonical[8] == '-';
    }
    Twin(name, canonical, lower);
  }

  lemma LengthAgrees(name: string)
    ensures Canonical(name) in {"Content-Length", "Te"} <==>
      Lower(name) in {"content-length", "te"}
  {
    var canonical, lower := "Content-Length", "content-length";
    assert Lower(canonical) == lower by {
      assert forall k :: 0 <= k < |canonical| ==> ToLower(canonical[k]) == lower[k];
    }
    assert Canonical(canonical) == canonical by {
      assert canonical[7] == '-';
    }
    Twin(name, canonical, lower);
    Twin(name, "Te", "te");
  }

  lemma ConnectionAgrees(name: string)
    ensures Canonical(name) in {"Connection", "Keep-Alive"} <==>
      Lower(name) in {"connection", "keep-alive"}
  {
    Twin(name, "Connection", "connection");
    Twin(name, "Keep-Alive", "keep-alive");
  }

  lemma HostAgrees(name: string)
    ensures Canonical(name) in {"Host", "Trailer"} <==>
      Lower(name) in {"host", "trailer"}
  {
    Twin(name, "Host", "host");
    Twin(name, "Trailer", "trailer");
  }

  lemma UpgradeAgrees(name: string)
    ensures Canonical(name) in {"Upgrade", "X-Signature"} <==>
      Lower(name) in {"upgrade", "x-signature"}
  {
    Twin(name, "Upgrade", "upgrade");
    Twin(name, "X-Signature", "x-signature");
  }

  lemma ReservedAgrees(name: string)
    ensures ReservedHeader(Canonical(name)) <==> Lower(name) in RESERVED || "proxy-" <= Lower(name)
  {
    ProxyTwin(name);
    SignatureAgrees(name);
    EncodingAgrees(name);
    LengthAgrees(name);
    ConnectionAgrees(name);
    HostAgrees(name);
    UpgradeAgrees(name);
  }

  /** Main result: the three validators accept the same names, the tokens of section 5.6.2 of RFC 9110 that are not
      reserved. */
  lemma NamesAgree(name: string)
    ensures BackendName(name) <==> WorkerName(name)
    ensures WorkerName(name) <==> WebhookHeaderNameError(name).None?
    ensures BackendName(name) ==> WorkerName(Canonical(name))
    ensures BackendName(name) <==>
      && name != "" && (forall k :: 0 <= k < |name| ==> '!' <= name[k] <= '~' && name[k] !in "\"(),/:;<=>?@[\\]{}")
      && !("proxy-" <= Lower(name))
      && Lower(name) !in {"x-signature", "x-server-signature", "host", "content-length", "connection",
                          "keep-alive", "te", "trailer", "transfer-encoding", "upgrade"}
  {
    ReservedAgrees(name);
    TokenIsVisible(name);
    TokenCharsAgree(name);
    if BackendName(name) {
      TokenCharsAgree(Canonical(name));
      CanonicalStays(name);
    }
  }

  lemma TokenCharsAgree(name: string)
    ensures ValidHeaderName(name) <==> Token(name)
  {
  }

  /** The tokens of section 5.6.2 of RFC 9110: visible ASCII without the delimiters. */
  lemma TokenIsVisible(name: string)
    ensures Token(name) <==> name != "" && forall k :: 0 <= k < |name| ==>
      '!' <= name[k] <= '~' && name[k] !in "\"(),/:;<=>?@[\\]{}"
  {
    forall c: char ensures TokenChar(c) <==> '!' <= c <= '~' && c !in "\"(),/:;<=>?@[\\]{}" { TokenCharIsVisible(c); }
  }

  lemma TokenCharIsVisible(c: char)
    ensures TokenChar(c) <==> '!' <= c <= '~' && c !in "\"(),/:;<=>?@[\\]{}"
  {
  }

  lemma CanonicalStays(name: string)
    ensures Lower(Canonical(name)) == Lower(name)
    ensures Token(name) ==> Token(Canonical(name))
  {
    var canonical := Canonical(name);
    forall k | 0 <= k < |name|
      ensures ToLower(canonical[k]) == ToLower(name[k]) && (TokenChar(name[k]) ==> TokenChar(canonical[k]))
    {
      StaysOneLetter(name[k], canonical[k]);
    }
  }

  lemma StaysOneLetter(c: char, d: char)
    requires d == ToUpper(c) || d == ToLower(c)
    ensures ToLower(d) == ToLower(c) && (TokenChar(c) ==> TokenChar(d))
  {
  }

  // ----- values -----

  predicate Blank(c: char) { c == ' ' || c == '\t' }

  predicate Printable(value: string) {
    forall k :: 0 <= k < |value| ==> value[k] == '\t' || ' ' <= value[k] <= '~'
  }

  function Joined(writes: seq<string>): string {
    if writes == [] then "" else Joined(writes[..|writes| - 1]) + writes[|writes| - 1]
  }

  /** The buffer a template writes to: a write that would overflow fails and leaves it as it was. */
  class TemplateBuffer {
    const maxSize: nat
    var buffer: string

    constructor (maxSize: nat)
      ensures this.maxSize == maxSize && buffer == ""
    {
      this.maxSize := maxSize;
      buffer := "";
    }

    method Write(data: string) returns (ok: bool)
      requires |buffer| <= maxSize
      modifies this
      ensures ok <==> |old(buffer)| + |data| <= maxSize
      ensures buffer == if ok then old(buffer) + data else old(buffer)
    {
      if |data| > maxSize - |buffer| { return false; }
      buffer := buffer + data;
      ok := true;
    }

    /** A template that executes stops at the first write that fails. */
    method Execute(writes: seq<string>) returns (ok: bool)
      requires |buffer| <= maxSize && buffer == ""
      modifies this
      ensures ok <==> |Joined(writes)| <= maxSize
      ensures ok ==> buffer == Joined(writes)
    {
      var k := 0;
      while k < |writes|
        invariant k <= |writes| && buffer == Joined(writes[..k]) && |buffer| <= maxSize
      {
        assert writes[..k + 1][..k] == writes[..k];
        var written := Write(writes[k]);
        if !written {
          JoinedGrows(writes, k + 1);
          return false;
        }
        k := k + 1;
      }
      assert writes[..k] == writes;
      ok := true;
    }
  }

  lemma {:induction false} JoinedGrows(writes: seq<string>, k: nat)
    requires k <= |writes|
    ensures |Joined(writes[..k])| <= |Joined(writes)|
  {
    if k < |writes| {
      JoinedGrows(writes[..|writes| - 1], k);
      assert writes[..|writes| - 1][..k] == writes[..k];
    } else {
      assert writes[..k] == writes;
    }
  }

  // ----- sizes -----

  ghost function Total(sizes: map<string, nat>): nat {
    if sizes == map[] then 0 else
      var name :| name in sizes;
      sizes[name] + Total(sizes - {name})
  }

  /** The total does not depend on the order in which it is taken. */
  lemma {:induction false} TotalTakes(sizes: map<string, nat>, name: string)
    requires name in sizes
    ensures Total(sizes) == sizes[name] + Total(sizes - {name})
    decreases sizes
  {
    var first :| first in sizes && Total(sizes) == sizes[first] + Total(sizes - {first});
    if first != name {
      TotalTakes(sizes - {first}, name);
      TotalTakes(sizes - {name}, first);
      assert sizes - {first} - {name} == sizes - {name} - {first};
    }
  }

  lemma TotalAdds(sizes: map<string, nat>, name: string, size: nat)
    requires name !in sizes
    ensures Total(sizes[name := size]) == Total(sizes) + size
  {
    TotalTakes(sizes[name := size], name);
    assert sizes[name := size] - {name} == sizes;
  }

  predicate Renames(from: map<string, nat>, to: map<string, nat>) {
    && (forall a, b :: a in from && b in from && Canonical(a) == Canonical(b) ==> a == b)
    && (forall a :: a in from ==> Canonical(a) in to && to[Canonical(a)] <= from[a])
    && (forall c :: c in to ==> exists a :: a in from && Canonical(a) == c)
  }

  lemma RenamesFewer(from: map<string, nat>, to: map<string, nat>, a: string)
    requires Renames(from, to) && a in from
    ensures Renames(from - {a}, to - {Canonical(a)})
  {
    forall c | c in to - {Canonical(a)} ensures exists b :: b in from - {a} && Canonical(b) == c {
      var b :| b in from && Canonical(b) == c;
      assert b in from - {a};
    }
  }

  /** Renaming the keys without merging any, and shrinking some sizes, does not enlarge the total. */
  lemma {:induction false} TotalShrinks(from: map<string, nat>, to: map<string, nat>)
    requires Renames(from, to)
    ensures Total(to) <= Total(from)
    decreases from
  {
    if from == map[] {
      assert to == map[];
    } else {
      var a :| a in from;
      var c := Canonical(a);
      RenamesFewer(from, to, a);
      TotalTakes(from, a);
      TotalTakes(to, c);
      TotalShrinks(from - {a}, to - {c});
    }
  }

  lemma {:induction false} TotalGrows(part: map<string, nat>, all: map<string, nat>)
    requires forall name :: name in part ==> name in all && part[name] == all[name]
    ensures Total(part) <= Total(all)
    decreases part
  {
    if part != map[] {
      var name :| name in part;
      TotalTakes(part, name);
      TotalTakes(all, name);
      TotalGrows(part - {name}, all - {name});
    }
  }

  // ----- rendering -----

  /** What a template produces when it parses and executes; nothing otherwise. */
  type Engine = string -> Option<seq<string>>

  function Value(engine: Engine, source: string): Option<string> {
    var writes := engine(source);
    if writes.None? || |Joined(writes.value)| > MAX_VALUE_SIZE || !Printable(Joined(writes.value)) then None
    else Some(Joined(writes.value))
  }

  function ValueOr(engine: Engine, source: string): string {
    if Value(engine, source).Some? then Value(engine, source).value else ""
  }

  function Values(templates: map<string, string>, engine: Engine): map<string, string> {
    map name | name in templates :: ValueOr(engine, templates[name])
  }

  function Sizes(headers: map<string, string>): map<string, nat> {
    map name | name in headers :: |name| + |headers[name]|
  }

  ghost function Size(headers: map<string, string>): nat {
    Total(Sizes(headers))
  }

  ghost predicate Distinct(names: set<string>) {
    forall a, b :: a in names && b in names && Canonical(a) == Canonical(b) ==> a == b
  }

  predicate Usable(name: string, source: string, engine: Engine) {
    BackendName(name) && Value(engine, source).Some?
  }

  /** Every condition on a header map, without reference to the order in which its entries are visited. */
  ghost predicate Acceptable(templates: map<string, string>, engine: Engine) {
    && |templates| <= MAX_HEADERS
    && AllUsable(templates, engine)
    && Distinct(templates.Keys)
    && Size(templates) <= MAX_SIZE
    && Size(Values(templates, engine)) <= MAX_SIZE
  }

  /** Each header appears once, under its canonical name, with its trimmed value. */
  ghost predicate Renders(templates: map<string, string>, engine: Engine, headers: map<string, string>) {
    && (forall name :: name in templates ==>
          Canonical(name) in headers && headers[Canonical(name)] == Trim(ValueOr(engine, templates[name]), Blank))
    && (forall c :: c in headers ==> ComesFrom(templates, c))
  }

  ghost predicate ComesFrom(templates: map<string, string>, c: string) {
    exists name :: name in templates && Canonical(name) == c
  }

  lemma AcceptableMeans(templates: map<string, string>, engine: Engine)
    ensures Acceptable(templates, engine) <==>
      && |templates| <= 32
      && (forall name :: name in templates ==> BackendName(name) && Value(engine, templates[name]).Some?)
      && (forall a, b :: a in templates && b in templates && Lower(a) == Lower(b) ==> a == b)
      && Size(templates) <= 65536 && Size(Values(templates, engine)) <= 65536
  {
    DistinctMeans(templates.Keys);
  }

  lemma DistinctMeans(names: set<string>)
    ensures Distinct(names) <==> forall a, b :: a in names && b in names && Lower(a) == Lower(b) ==> a == b
  {
    forall a, b | a in names && b in names ensures Canonical(a) == Canonical(b) <==> Lower(a) == Lower(b) {
      CanonicalIdentifies(a, b);
    }
  }

  /** Visiting an order cannot change the outcome: two renderings of the same templates are equal. */
  lemma RenderingIsUnique(
    templates: map<string, string>, engine: Engine, a: map<string, string>, b: map<string, string>)
    requires Renders(templates, engine, a) && Renders(templates, engine, b)
    ensures a == b
  {
    assert forall c :: c in a <==> c in b;
  }

  lemma PartIsAcceptable(part: map<string, string>, templates: map<string, string>, engine: Engine)
    requires forall name :: name in part ==> name in templates && part[name] == templates[name]
    requires Acceptable(templates, engine)
    ensures Acceptable(part, engine)
  {
    SizeGrows(part, templates);
    SizeGrows(Values(part, engine), Values(templates, engine));
    CardinalityGrows(part.Keys, templates.Keys);
  }

  lemma SizeGrows(part: map<string, string>, all: map<string, string>)
    requires forall name :: name in part ==> name in all && part[name] == all[name]
    ensures Size(part) <= Size(all)
  {
    TotalGrows(Sizes(part), Sizes(all));
  }

  lemma {:induction false} CardinalityGrows(part: set<string>, all: set<string>)
    requires part <= all
    ensures |part| <= |all|
  {
    if part != {} {
      var name :| name in part;
      CardinalityGrows(part - {name}, all - {name});
    }
  }

  lemma SizeAdds(headers: map<string, string>, name: string, text: string)
    requires name !in headers
    ensures Size(headers[name := text]) == Size(headers) + |name| + |text|
  {
    TotalAdds(Sizes(headers), name, |name| + |text|);
    assert Sizes(headers[name := text]) == Sizes(headers)[name := |name| + |text|];
  }

  lemma ValuesAdd(part: map<string, string>, name: string, source: string, engine: Engine)
    requires name !in part
    ensures Values(part[name := source], engine) == Values(part, engine)[name := ValueOr(engine, source)]
  {
  }

  lemma DistinctMore(part: map<string, string>, name: string, engine: Engine, headers: map<string, string>)
    requires Distinct(part.Keys) && Renders(part, engine, headers) && name !in part
    ensures Distinct(part.Keys + {name}) <==> Canonical(name) !in headers
  {
    if Canonical(name) in headers {
      var other :| other in part && Canonical(other) == Canonical(name);
      assert other in part.Keys + {name};
    }
  }

  ghost predicate AllUsable(templates: map<string, string>, engine: Engine) {
    forall name :: name in templates ==> Usable(name, templates[name], engine)
  }

  lemma UsableMore(part: map<string, string>, name: string, source: string, engine: Engine)
    requires AllUsable(part, engine) && name !in part
    ensures AllUsable(part[name := source], engine) <==> Usable(name, source, engine)
  {
    var more := part[name := source];
    assert name in more && more[name] == source;
  }

  lemma MoreSizes(part: map<string, string>, name: string, source: string, engine: Engine)
    requires name !in part
    ensures Size(part[name := source]) == Size(part) + |name| + |source|
    ensures Size(Values(part[name := source], engine))
      == Size(Values(part, engine)) + |name| + |ValueOr(engine, source)|
  {
    SizeAdds(part, name, source);
    ValuesAdd(part, name, source, engine);
    SizeAdds(Values(part, engine), name, ValueOr(engine, source));
  }

  /** One more entry is acceptable exactly when it passes each check the loop makes. */
  lemma OneMore(part: map<string, string>, name: string, source: string, engine: Engine)
    requires Acceptable(part, engine) && name !in part && |part| < MAX_HEADERS
    ensures Acceptable(part[name := source], engine) <==>
      && Usable(name, source, engine) && Distinct(part.Keys + {name})
      && Size(part[name := source]) <= MAX_SIZE && Size(Values(part[name := source], engine)) <= MAX_SIZE
  {
    var more := part[name := source];
    assert more.Keys == part.Keys + {name} && |more| == |part| + 1;
    UsableMore(part, name, source, engine);
  }

  /** The checks RenderHeaders makes for one entry, after `headers` were collected with the sizes given. */
  predicate Passes(
    name: string, source: string, engine: Engine, headers: map<string, string>, sourceSize: nat, renderedSize: nat)
  {
    && Usable(name, source, engine) && Canonical(name) !in headers
    && sourceSize + |name| + |source| <= MAX_SIZE
    && renderedSize + |name| + |ValueOr(engine, source)| <= MAX_SIZE
  }

  ghost predicate Part(part: map<string, string>, templates: map<string, string>) {
    forall name :: name in part ==> name in templates && part[name] == templates[name]
  }

  lemma Entry(part: map<string, string>, name: string, source: string, engine: Engine, headers: map<string, string>)
    requires Acceptable(part, engine) && Renders(part, engine, headers) && name !in part && |part| < MAX_HEADERS
    ensures Acceptable(part[name := source], engine) <==>
      Passes(name, source, engine, headers, Size(part), Size(Values(part, engine)))
  {
    MoreSizes(part, name, source, engine);
    DistinctMore(part, name, engine, headers);
    OneMore(part, name, source, engine);
  }

  lemma EntryRefused(more: map<string, string>, templates: map<string, string>, engine: Engine)
    requires Part(more, templates) && !Acceptable(more, engine)
    ensures !Acceptable(templates, engine)
  {
    if Acceptable(templates, engine) { PartIsAcceptable(more, templates, engine); }
  }

  lemma RendersMore(
    part: map<string, string>, name: string, source: string, engine: Engine, headers: map<string, string>)
    requires Renders(part, engine, headers) && name !in part && Canonical(name) !in headers
    ensures Renders(part[name := source], engine, headers[Canonical(name) := Trim(ValueOr(engine, source), Blank)])
  {
    OriginsMore(part, name, source, headers, headers[Canonical(name) := Trim(ValueOr(engine, source), Blank)]);
  }

  lemma OriginsMore(
    part: map<string, string>, name: string, source: string, headers: map<string, string>, more: map<string, string>)
    requires forall c :: c in headers ==> ComesFrom(part, c)
    requires forall c :: c in more ==> c in headers || c == Canonical(name)
    ensures forall c :: c in more ==> ComesFrom(part[name := source], c)
  {
    forall c | c in more ensures ComesFrom(part[name := source], c) {
      if c in headers {
        var n :| n in part && Canonical(n) == c;
        assert n in part[name := source];
      } else {
        assert name in part[name := source];
      }
    }
  }

  method RenderValue(engine: Engine, source: string) returns (value: Option<string>)
    ensures value == Value(engine, source)
    ensures value.None? <==>
      || engine(source).None? || |Joined(engine(source).value)| > 8192
      || exists k :: 0 <= k < |Joined(engine(source).value)| && Joined(engine(source).value)[k] != '\t'
           && !(' ' <= Joined(engine(source).value)[k] <= '~')
    ensures value.Some? ==> value.value == Joined(engine(source).value)
  {
    var writes := engine(source);
    if writes.None? { return None; }
    var output := new TemplateBuffer(MAX_VALUE_SIZE);
    var ok := output.Execute(writes.value);
    if !ok || !Printable(output.buffer) { return None; }
    value := Some(output.buffer);
  }

  /** The body of the loop: the rendered value when every check passes. */
  method RenderHeader(
    name: string, source: string, engine: Engine, headers: map<string, string>, sourceSize: nat, renderedSize: nat)
    returns (result: Option<string>)
    ensures result.Some? <==> Passes(name, source, engine, headers, sourceSize, renderedSize)
    ensures result.Some? ==> result.value == ValueOr(engine, source)
  {
    if !ValidHeaderName(name) { return None; }
    var canonical := Canonical(name);
    if ReservedHeader(canonical) { return None; }
    if canonical in headers { return None; }
    if sourceSize + |canonical| + |source| > MAX_SIZE { return None; }
    var value := RenderValue(engine, source);
    if value.None? { return None; }
    if renderedSize + |canonical| + |value.value| > MAX_SIZE { return None; }
    result := value;
  }

  /** One turn of the loop: the value to store, unless the whole map has to be refused. */
  method TakeEntry(
    templates: map<string, string>, name: string, engine: Engine, headers: map<string, string>,
    sourceSize: nat, renderedSize: nat, ghost part: map<string, string>, ghost rest: set<string>)
    returns (value: Option<string>)
    requires |templates| <= MAX_HEADERS && name in rest && name in templates
    requires Visited(part, rest, templates) && Collected(part, engine, headers, sourceSize, renderedSize)
    ensures Visited(part[name := templates[name]], rest - {name}, templates)
    ensures value.None? ==> !Acceptable(templates, engine)
    ensures value.Some? ==>
      Collected(part[name := templates[name]], engine, headers[Canonical(name) := Trim(value.value, Blank)],
        sourceSize + |name| + |templates[name]|, renderedSize + |name| + |value.value|)
  {
    value := RenderHeader(name, templates[name], engine, headers, sourceSize, renderedSize);
    VisitMoves(part, rest, templates, name);
    if value.None? {
      VisitRefused(part, templates, name, engine, headers, sourceSize, renderedSize);
    } else {
      VisitTaken(part, name, templates[name], engine, headers, sourceSize, renderedSize);
    }
  }

  lemma NothingCollected(engine: Engine)
    ensures Collected(map[], engine, map[], 0, 0)
  {
    assert Sizes(map[]) == map[] && Values(map[], engine) == map[];
  }

  lemma AllCollected(
    part: map<string, string>, rest: set<string>, templates: map<string, string>, engine: Engine,
    headers: map<string, string>, sourceSize: nat, renderedSize: nat)
    requires Visited(part, rest, templates) && rest == {}
    requires Collected(part, engine, headers, sourceSize, renderedSize)
    ensures Acceptable(templates, engine) && Renders(templates, engine, headers)
  {
    VisitedAll(part, rest, templates);
  }

  lemma VisitedIn(part: map<string, string>, rest: set<string>, templates: map<string, string>, name: string)
    requires Visited(part, rest, templates) && name in rest
    ensures name in templates
  {
    assert name in part.Keys + rest;
  }

  /** Go visits a map in any order: each iteration picks any entry that is left. */
  method RenderHeaders(
    templates: map<string, string>, event: string, engine: Engine)
    returns (result: Option<map<string, string>>)
    ensures result.Some? <==> event in {"create", "update", "delete"} && Acceptable(templates, engine)
    ensures result.Some? ==> Renders(templates, engine, result.value)
    ensures result.Some? <==>
      && event in {"create", "update", "delete"} && |templates| <= 32
      && (forall name :: name in templates ==> BackendName(name) && Value(engine, templates[name]).Some?)
      && (forall a, b :: a in templates && b in templates && Lower(a) == Lower(b) ==> a == b)
      && Size(templates) <= 65536 && Size(Values(templates, engine)) <= 65536
    ensures result.Some? ==> forall name :: name in templates ==>
      && Value(engine, templates[name]).Some? && Canonical(name) in result.value
      && result.value[Canonical(name)] == Trim(Value(engine, templates[name]).value, Blank)
  {
    if event != "create" && event != "update" && event != "delete" { return None; }
    result := RenderAll(templates, engine);
    AcceptableMeans(templates, engine);
  }

  method RenderAll(templates: map<string, string>, engine: Engine) returns (result: Option<map<string, string>>)
    ensures result.Some? <==> Acceptable(templates, engine)
    ensures result.Some? ==> Renders(templates, engine, result.value)
  {
    if |templates| > MAX_HEADERS { return None; }
    var headers: map<string, string> := map[];
    var sourceSize: nat, renderedSize: nat := 0, 0;
    var rest := templates.Keys;
    ghost var part: map<string, string> := map[];
    NothingCollected(engine);
    while rest != {}
      invariant Visited(part, rest, templates)
      invariant Collected(part, engine, headers, sourceSize, renderedSize)
      decreases rest
    {
      var name :| name in rest;
      VisitedIn(part, rest, templates, name);
      var value := TakeEntry(templates, name, engine, headers, sourceSize, renderedSize, part, rest);
      if value.None? { return None; }
      sourceSize := sourceSize + |name| + |templates[name]|;
      renderedSize := renderedSize + |name| + |value.value|;
      headers := headers[Canonical(name) := Trim(value.value, Blank)];
      part := part[name := templates[name]];
      rest := rest - {name};
    }
    AllCollected(part, rest, templates, engine, headers, sourceSize, renderedSize);
    result := Some(headers);
  }

  ghost predicate Visited(part: map<string, string>, rest: set<string>, templates: map<string, string>) {
    Part(part, templates) && part.Keys + rest == templates.Keys && part.Keys !! rest
  }

  ghost predicate Collected(
    part: map<string, string>, engine: Engine, headers: map<string, string>, sourceSize: nat, renderedSize: nat)
  {
    && Acceptable(part, engine) && Renders(part, engine, headers)
    && sourceSize == Size(part) && renderedSize == Size(Values(part, engine))
  }

  lemma VisitedAll(part: map<string, string>, rest: set<string>, templates: map<string, string>)
    requires Visited(part, rest, templates) && rest == {}
    ensures part == templates
  {
    assert part.Keys == templates.Keys;
  }

  lemma VisitMoves(part: map<string, string>, rest: set<string>, templates: map<string, string>, name: string)
    requires Visited(part, rest, templates) && name in rest && |templates| <= MAX_HEADERS
    ensures Part(part, templates) && name in templates && name !in part && |part| < MAX_HEADERS
    ensures Visited(part[name := templates[name]], rest - {name}, templates)
  {
    assert part[name := templates[name]].Keys == part.Keys + {name};
    FewerThanAll(part.Keys, templates.Keys, name);
  }

  lemma VisitRefused(
    part: map<string, string>, templates: map<string, string>, name: string,
    engine: Engine, headers: map<string, string>, sourceSize: nat, renderedSize: nat)
    requires Part(part, templates) && name in templates && name !in part && |part| < MAX_HEADERS
    requires Collected(part, engine, headers, sourceSize, renderedSize)
    requires !Passes(name, templates[name], engine, headers, sourceSize, renderedSize)
    ensures !Acceptable(templates, engine)
  {
    Entry(part, name, templates[name], engine, headers);
    EntryRefused(part[name := templates[name]], templates, engine);
  }

  lemma VisitTaken(
    part: map<string, string>, name: string, source: string,
    engine: Engine, headers: map<string, string>, sourceSize: nat, renderedSize: nat)
    requires name !in part && |part| < MAX_HEADERS
    requires Collected(part, engine, headers, sourceSize, renderedSize)
    requires Passes(name, source, engine, headers, sourceSize, renderedSize)
    ensures var value := ValueOr(engine, source);
      Collected(part[name := source], engine, headers[Canonical(name) := Trim(value, Blank)],
        sourceSize + |name| + |source|, renderedSize + |name| + |value|)
  {
    Entry(part, name, source, engine, headers);
    MoreSizes(part, name, source, engine);
    RendersMore(part, name, source, engine, headers);
  }

  lemma FewerThanAll(part: set<string>, all: set<string>, name: string)
    requires part <= all && name in all && name !in part
    ensures |part| < |all|
  {
    CardinalityGrows(part + {name}, all);
  }

  // ----- the worker -----

  datatype Field = Chars(value: string) | NotChars

  type Entries = seq<(string, Field)>

  datatype Wire = Absent | NotAnObject | Object(entries: Entries)

  predicate EntryOk(name: string, field: Field) {
    WorkerName(name) && field.Chars? && Printable(field.value) && |field.value| <= MAX_VALUE_SIZE
  }

  function EntrySize(entry: (string, Field)): nat {
    |entry.0| + if entry.1.Chars? then |entry.1.value| else 0
  }

  function EntriesSize(entries: Entries): nat {
    if entries == [] then 0 else EntriesSize(entries[..|entries| - 1]) + EntrySize(entries[|entries| - 1])
  }

  predicate CaseDistinct(entries: Entries) {
    forall i, j :: 0 <= i < j < |entries| ==> Lower(entries[i].0) != Lower(entries[j].0)
  }

  predicate WorkerAccepts(entries: Entries) {
    && |entries| <= MAX_HEADERS
    && (forall k :: 0 <= k < |entries| ==> EntryOk(entries[k].0, entries[k].1))
    && CaseDistinct(entries)
    && EntriesSize(entries) <= MAX_SIZE
  }

  /** Object.fromEntries on entries that carry text. */
  function FromEntries(entries: Entries): map<string, string> {
    map k | 0 <= k < |entries| && entries[k].1.Chars? && Last(entries, k) :: entries[k].0 := entries[k].1.value
  }

  predicate Last(entries: Entries, k: nat)
    requires k < |entries|
  {
    forall j :: k < j < |entries| ==> entries[j].0 != entries[k].0
  }

  function Parsed(value: Wire): Option<map<string, string>> {
    match value
    case Absent => Some(map[])
    case NotAnObject => None
    case Object(entries) => if WorkerAccepts(entries) then Some(FromEntries(entries)) else None
  }

  lemma {:induction false} SizeOfPrefix(entries: Entries, k: nat)
    requires k <= |entries|
    ensures EntriesSize(entries[..k]) <= EntriesSize(entries)
  {
    if k < |entries| {
      SizeOfPrefix(entries[..|entries| - 1], k);
      assert entries[..|entries| - 1][..k] == entries[..k];
    } else {
      assert entries[..k] == entries;
    }
  }

  lemma NextSize(entries: Entries, k: nat)
    requires k < |entries|
    ensures EntriesSize(entries[..k + 1]) == EntriesSize(entries[..k]) + EntrySize(entries[k])
  {
    assert entries[..k + 1][..k] == entries[..k];
  }

  lemma EntriesAreRead(entries: Entries)
    requires WorkerAccepts(entries)
    ensures forall k :: 0 <= k < |entries| ==>
      entries[k].0 in FromEntries(entries) && Chars(FromEntries(entries)[entries[k].0]) == entries[k].1
  {
    forall k | 0 <= k < |entries| ensures Last(entries, k) {}
  }

  method ParseHeaders(value: Wire) returns (result: Option<map<string, string>>)
    ensures result == Parsed(value)
    ensures value.Absent? ==> result == Some(map[])
    ensures value.NotAnObject? ==> result == None
    ensures value.Object? ==>
      var entries := value.entries;
      result.Some? <==>
        && |entries| <= 32 && EntriesSize(entries) <= 65536
        && (forall k :: 0 <= k < |entries| ==> WorkerName(entries[k].0) && entries[k].1.Chars?)
        && (forall k :: 0 <= k < |entries| ==> |entries[k].1.value| <= 8192 && Printable(entries[k].1.value))
        && (forall i, j :: 0 <= i < j < |entries| ==> Lower(entries[i].0) != Lower(entries[j].0))
    ensures value.Object? && result.Some? ==>
      var entries := value.entries;
      && (forall k :: 0 <= k < |entries| ==>
            entries[k].0 in result.value && Chars(result.value[entries[k].0]) == entries[k].1)
      && forall name :: name in result.value ==> exists k :: 0 <= k < |entries| && entries[k].0 == name
  {
    match value {
      case Absent => result := Some(map[]);
      case NotAnObject => result := None;
      case Object(entries) =>
        var ok := CheckEntries(entries);
        if ok { EntriesAreRead(entries); }
        result := if ok then Some(FromEntries(entries)) else None;
    }
  }

  /** The loop of parseHeaders. */
  method CheckEntries(entries: Entries) returns (ok: bool)
    ensures ok <==> WorkerAccepts(entries)
  {
    if |entries| > MAX_HEADERS { return false; }
    var names: set<string> := {};
    var size := 0;
    var k := 0;
    NothingChecked(entries);
    while k < |entries|
      invariant k <= |entries|
      invariant Checked(entries, k, names, size)
    {
      var (name, field) := entries[k];
      var normalized := Lower(name);
      if !EntryOk(name, field) || normalized in names {
        CheckedFails(entries, k, names, size);
        return false;
      }
      if size + EntrySize(entries[k]) > MAX_SIZE {
        TooLarge(entries, k, names, size);
        return false;
      }
      CheckedNext(entries, k, names, size);
      names := names + {normalized};
      size := size + |name| + |field.value|;
      k := k + 1;
    }
    CheckedAll(entries, names, size);
    ok := true;
  }

  lemma NothingChecked(entries: Entries)
    ensures Checked(entries, 0, {}, 0)
  {
    assert entries[..0] == [];
  }

  lemma TooLarge(entries: Entries, k: nat, names: set<string>, size: int)
    requires k < |entries| && Checked(entries, k, names, size) && size + EntrySize(entries[k]) > MAX_SIZE
    ensures !WorkerAccepts(entries)
  {
    NextSize(entries, k);
    SizeOfPrefix(entries, k + 1);
  }

  /** The first k entries passed; their lower-case names and their size are recorded. */
  ghost predicate Checked(entries: Entries, k: nat, names: set<string>, size: int)
    requires k <= |entries|
  {
    && (forall i :: 0 <= i < k ==> EntryOk(entries[i].0, entries[i].1) && Lower(entries[i].0) in names)
    && (forall name :: name in names ==> exists i :: 0 <= i < k && Lower(entries[i].0) == name)
    && (forall i, j :: 0 <= i < j < k ==> Lower(entries[i].0) != Lower(entries[j].0))
    && size == EntriesSize(entries[..k]) <= MAX_SIZE
  }

  lemma CheckedNext(entries: Entries, k: nat, names: set<string>, size: int)
    requires k < |entries| && Checked(entries, k, names, size)
    requires EntryOk(entries[k].0, entries[k].1) && Lower(entries[k].0) !in names
    requires size + EntrySize(entries[k]) <= MAX_SIZE
    ensures Checked(entries, k + 1, names + {Lower(entries[k].0)}, size + EntrySize(entries[k]))
  {
    NextSize(entries, k);
  }

  lemma CheckedFails(entries: Entries, k: nat, names: set<string>, size: int)
    requires k < |entries| && Checked(entries, k, names, size)
    requires !EntryOk(entries[k].0, entries[k].1) || Lower(entries[k].0) in names
    ensures !WorkerAccepts(entries)
  {
  }

  lemma CheckedAll(entries: Entries, names: set<string>, size: int)
    requires Checked(entries, |entries|, names, size) && |entries| <= MAX_HEADERS
    ensures WorkerAccepts(entries)
  {
    assert entries[..|entries|] == entries;
  }

  // ----- what is rendered is parsed back -----

  /** The entries of a header map in some order. */
  ghost predicate Lists(entries: Entries, headers: map<string, string>) {
    && (forall i, j :: 0 <= i < j < |entries| ==> entries[i].0 != entries[j].0)
    && (forall i :: 0 <= i < |entries| ==> entries[i].0 in headers && entries[i].1 == Chars(headers[entries[i].0]))
    && (forall name :: name in headers ==> exists i :: 0 <= i < |entries| && entries[i].0 == name)
  }

  /** An empty map is left out of the request; any other travels as an object. */
  ghost predicate Carries(wire: Wire, headers: map<string, string>) {
    if headers == map[] then wire.Absent? else wire.Object? && Lists(wire.entries, headers)
  }

  lemma {:induction false} ListSize(entries: Entries, headers: map<string, string>)
    requires Lists(entries, headers)
    ensures EntriesSize(entries) == Size(headers) && |entries| == |headers|
    decreases |entries|
  {
    if entries == [] {
      assert headers == map[];
    } else {
      var fewer := ListsFewer(entries, headers);
      ListSize(entries[..|entries| - 1], fewer);
    }
  }

  lemma SizeTakes(headers: map<string, string>, name: string)
    requires name in headers
    ensures Size(headers) == Size(headers - {name}) + |name| + |headers[name]| && |headers| == |headers - {name}| + 1
  {
    SizeAdds(headers - {name}, name, headers[name]);
    assert (headers - {name})[name := headers[name]] == headers;
  }

  lemma ListsWithout(entries: Entries, headers: map<string, string>)
    requires Lists(entries, headers) && entries != []
    ensures Lists(entries[..|entries| - 1], headers - {entries[|entries| - 1].0})
  {
    var last := |entries| - 1;
    forall name | name in headers - {entries[last].0}
      ensures exists i :: 0 <= i < last && entries[..last][i].0 == name
    {
      var i :| 0 <= i < |entries| && entries[i].0 == name;
      assert entries[..last][i].0 == name;
    }
  }

  lemma ListsFewer(entries: Entries, headers: map<string, string>) returns (fewer: map<string, string>)
    requires Lists(entries, headers) && entries != []
    ensures Lists(entries[..|entries| - 1], fewer)
    ensures Size(headers) == Size(fewer) + EntrySize(entries[|entries| - 1]) && |headers| == |fewer| + 1
  {
    ListsWithout(entries, headers);
    fewer := headers - {entries[|entries| - 1].0};
    SizeTakes(headers, entries[|entries| - 1].0);
  }

  lemma {:induction false} CanonicalCovers(names: set<string>, canonical: set<string>)
    requires forall c :: c in canonical ==> exists name :: name in names && Canonical(name) == c
    ensures |canonical| <= |names|
  {
    if canonical != {} {
      var c :| c in canonical;
      var name :| name in names && Canonical(name) == c;
      forall d | d in canonical - {c} ensures exists n :: n in names - {name} && Canonical(n) == d {
        var n :| n in names && Canonical(n) == d;
        assert n in names - {name};
      }
      CanonicalCovers(names - {name}, canonical - {c});
    }
  }

  lemma TrimShortens(value: string)
    ensures |Trim(value, Blank)| <= |value|
  {
    var left, right := TrimIsInner(value, Blank);
  }

  lemma RenderedRenames(templates: map<string, string>, engine: Engine, headers: map<string, string>)
    requires Distinct(templates.Keys) && Renders(templates, engine, headers)
    ensures Renames(Sizes(Values(templates, engine)), Sizes(headers))
  {
    var from, to := Sizes(Values(templates, engine)), Sizes(headers);
    forall a | a in from ensures Canonical(a) in to && to[Canonical(a)] <= from[a] {
      TrimShortens(ValueOr(engine, templates[a]));
    }
    forall c | c in to ensures exists a :: a in from && Canonical(a) == c {
      assert ComesFrom(templates, c);
      var a :| a in templates && Canonical(a) == c;
      assert a in from;
    }
  }

  lemma RenderedCount(templates: map<string, string>, engine: Engine, headers: map<string, string>)
    requires Renders(templates, engine, headers)
    ensures |headers| <= |templates|
  {
    forall c | c in headers.Keys ensures exists name :: name in templates.Keys && Canonical(name) == c {
      assert ComesFrom(templates, c);
      var name :| name in templates && Canonical(name) == c;
      assert name in templates.Keys;
    }
    CanonicalCovers(templates.Keys, headers.Keys);
  }

  lemma RenderedSize(templates: map<string, string>, engine: Engine, headers: map<string, string>)
    requires Acceptable(templates, engine) && Renders(templates, engine, headers)
    ensures Size(headers) <= MAX_SIZE && |headers| <= MAX_HEADERS
  {
    RenderedRenames(templates, engine, headers);
    TotalShrinks(Sizes(Values(templates, engine)), Sizes(headers));
    RenderedCount(templates, engine, headers);
  }

  lemma TrimmedFits(value: string)
    requires Printable(value) && |value| <= MAX_VALUE_SIZE
    ensures Printable(Trim(value, Blank)) && |Trim(value, Blank)| <= MAX_VALUE_SIZE
  {
    var left, right := TrimIsInner(value, Blank);
    var trimmed := Trim(value, Blank);
    assert forall k :: 0 <= k < |trimmed| ==> trimmed[k] == (left + trimmed + right)[|left| + k];
  }

  lemma RenderedName(name: string)
    requires BackendName(name)
    ensures WorkerName(Canonical(name)) && Canonical(Canonical(name)) == Canonical(name)
  {
    NamesAgree(name);
    CanonicalStays(name);
    CanonicalIdentifies(Canonical(name), name);
  }

  lemma RenderedEntry(templates: map<string, string>, engine: Engine, headers: map<string, string>, c: string)
    requires AllUsable(templates, engine) && Renders(templates, engine, headers) && c in headers
    ensures EntryOk(c, Chars(headers[c])) && Canonical(c) == c
  {
    var name :| name in templates && Canonical(name) == c;
    assert Usable(name, templates[name], engine);
    RenderedName(name);
    TrimmedFits(ValueOr(engine, templates[name]));
  }

  predicate GoodEntry(entry: (string, Field)) {
    EntryOk(entry.0, entry.1) && Canonical(entry.0) == entry.0
  }

  lemma GoodEntriesAccepted(entries: Entries, headers: map<string, string>)
    requires Lists(entries, headers) && |entries| <= MAX_HEADERS && EntriesSize(entries) <= MAX_SIZE
    requires forall k :: 0 <= k < |entries| ==> GoodEntry(entries[k])
    ensures WorkerAccepts(entries)
  {
    forall i, j | 0 <= i < j < |entries| ensures Lower(entries[i].0) != Lower(entries[j].0) {
      assert GoodEntry(entries[i]) && GoodEntry(entries[j]);
      CanonicalIdentifies(entries[i].0, entries[j].0);
    }
    forall k | 0 <= k < |entries| ensures EntryOk(entries[k].0, entries[k].1) { assert GoodEntry(entries[k]); }
  }

  /** Main result: whatever RenderHeaders returns, the worker accepts it and reads the same map. */
  lemma RenderedIsParsed(templates: map<string, string>, engine: Engine, headers: map<string, string>, wire: Wire)
    requires Acceptable(templates, engine) && Renders(templates, engine, headers) && Carries(wire, headers)
    ensures Parsed(wire) == Some(headers)
  {
    if headers != map[] {
      var entries := wire.entries;
      RenderedSize(templates, engine, headers);
      ListSize(entries, headers);
      forall k | 0 <= k < |entries| ensures GoodEntry(entries[k]) {
        RenderedEntry(templates, engine, headers, entries[k].0);
      }
      GoodEntriesAccepted(entries, headers);
      ListIsMap(entries, headers);
    }
  }

  lemma ListIsMap(entries: Entries, headers: map<string, string>)
    requires Lists(entries, headers)
    ensures FromEntries(entries) == headers
  {
    forall k | 0 <= k < |entries| ensures Last(entries, k) {}
    forall name | name in headers ensures name in FromEntries(entries) {
      var i :| 0 <= i < |entries| && entries[i].0 == name;
      assert Last(entries, i);
    }
  }
}
