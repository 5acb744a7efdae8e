/**
 * A VoID dataset description (W3C "Describing Linked Datasets with the VoID
 * Vocabulary"): the fetched graph, the `void:Dataset` entities it declares and
 * the attribute lookup on one entity. Fetching and Turtle parsing are left to
 * the caller, which hands the parsed triples to the constructor.
 */
module Void {
  import opened Wrappers
  import opened Timestamps

  const VOID_NS := "http://rdfs.org/ns/void#"
  const DCTERMS_NS := "http://purl.org/dc/terms/"
  const RDF_TYPE := "http://www.w3.org/1999/02/22-rdf-syntax-ns#type"
  const VOID_DATASET := VOID_NS + "Dataset"
  /** The well-known path for VoID descriptions (RFC 8615, section 3). */
  const WELL_KNOWN_SUFFIX := ".well-known/void"

  /** The keys looked up in the Dublin Core terms namespace; every other key is a VoID term. */
  const DCTERMS_KEYS: seq<string> := ["title", "description", "creator", "publisher",
                                      "contributor", "source", "date", "created",
                                      "issued", "modified"]

  /** An object node: a resource, a plain literal, an `xsd:dateTime` or an `xsd:date` literal. */
  datatype Term =
    | Iri(iri: string)
    | Literal(lexical: string)
    | DateTime(time: Timestamp)
    | Date(year: int, month: int, day: int)

  /** A term whose `toPython()` is a `datetime` or a `date`. */
  predicate Temporal(t: Term) {
    t.DateTime? || t.Date?
  }

  /** The `datetime` a temporal term stands for; a date stands for its midnight, as `strftime` prints it. */
  function Moment(t: Term): Timestamp
    requires Temporal(t)
  {
    match t
    case DateTime(time) => time
    case Date(year, month, day) => Timestamp(year, month, day, 0, 0, 0, 0)
  }

  datatype Triple = Triple(subject: string, pred: string, obj: Term)

  /** The parsed graph, in the order its triples are iterated. */
  type Graph = seq<Triple>

  predicate NoDuplicates<T(==)>(xs: seq<T>) {
    forall i, j :: 0 <= i < j < |xs| ==> xs[i] != xs[j]
  }

  /** An RDF graph is a set: it holds each triple at most once. */
  predicate Distinct(g: Graph) {
    NoDuplicates(g)
  }

  lemma NoDuplicatesSnoc<T>(xs: seq<T>, x: T)
    requires NoDuplicates(xs) && x !in xs
    ensures NoDuplicates(xs + [x])
  {
  }

  lemma NoDuplicatesInit<T>(xs: seq<T>)
    requires NoDuplicates(xs) && xs != []
    ensures NoDuplicates(xs[..|xs| - 1])
  {
  }

  /** What an attribute lookup returns: `None`, one value, or a list of two or more. */
  datatype Value = Absent | Single(value: Term) | Many(values: seq<Term>)

  // ---------------------------------------------------------------------------
  // Fetch parameters

  /** The URI the constructor requests, or `None` when it issues no request. */
  function RequestUri(uri: string, wellKnown: bool): (r: Option<string>)
    ensures r.Some? <==> wellKnown
    ensures r.Some? ==> |r.value| == |uri| + |WELL_KNOWN_SUFFIX| &&
                        r.value[..|uri|] == uri && r.value[|uri|..] == WELL_KNOWN_SUFFIX
  {
    if wellKnown then Some(uri + WELL_KNOWN_SUFFIX) else None
  }

  // ---------------------------------------------------------------------------
  // Triple accessor and attribute lookup

  /** The namespace `LODataset.__getitem__` resolves a key in; unknown keys fall to VoID. */
  function Namespace(key: string): (ns: string)
    ensures ns == DCTERMS_NS <==> key in DCTERMS_KEYS
    ensures ns == VOID_NS <==> key !in DCTERMS_KEYS
  {
    if key in DCTERMS_KEYS then DCTERMS_NS else VOID_NS
  }

  function Predicate(key: string): string {
    Namespace(key) + key
  }

  predicate Matches(t: Triple, subject: string, pred: string) {
    t.subject == subject && t.pred == pred
  }

  /** The objects of the triples `(subject, predicate, ?)`, in iteration order. */
  function Objects(g: Graph, subject: string, pred: string): seq<Term> {
    if g == [] then []
    else Objects(g[..|g| - 1], subject, pred) +
         (if Matches(g[|g| - 1], subject, pred) then [g[|g| - 1].obj] else [])
  }

  /** Adding one triple at the end adds its object at the end when it matches. */
  lemma ObjectsSnoc(g: Graph, t: Triple, subject: string, pred: string)
    ensures Objects(g + [t], subject, pred) ==
            Objects(g, subject, pred) + (if Matches(t, subject, pred) then [t.obj] else [])
  {
    assert (g + [t])[..|g + [t]| - 1] == g;
  }

  /** The lookup collects exactly the objects of the matching triples, and no more of them than triples. */
  lemma {:induction false} ObjectsExactly(g: Graph, subject: string, pred: string, o: Term)
    ensures o in Objects(g, subject, pred) <==>
            exists i :: 0 <= i < |g| && g[i] == Triple(subject, pred, o)
    ensures |Objects(g, subject, pred)| <= |g|
  {
    if g != [] {
      var init := g[..|g| - 1];
      ObjectsExactly(init, subject, pred, o);
      if o in Objects(init, subject, pred) {
        var i :| 0 <= i < |init| && init[i] == Triple(subject, pred, o);
        assert g[i] == init[i];
      }
      if exists i :: 0 <= i < |g| && g[i] == Triple(subject, pred, o) {
        var i :| 0 <= i < |g| && g[i] == Triple(subject, pred, o);
        if i < |init| {
          assert init[i] == g[i];
        }
      }
    }
  }

  /** In a graph without repeated triples, no object is collected twice. */
  lemma {:induction false} ObjectsDistinct(g: Graph, subject: string, pred: string)
    requires Distinct(g)
    ensures NoDuplicates(Objects(g, subject, pred))
  {
    if g != [] {
      var n := |g| - 1;
      var init := g[..n];
      NoDuplicatesInit(g);
      ObjectsDistinct(init, subject, pred);
      if Matches(g[n], subject, pred) {
        var o := g[n].obj;
        assert g[n] == Triple(subject, pred, o);
        forall i | 0 <= i < |init|
          ensures init[i] != Triple(subject, pred, o)
        {
          assert init[i] == g[i];
        }
        ObjectsExactly(init, subject, pred, o);
        NoDuplicatesSnoc(Objects(init, subject, pred), o);
      }
    }
  }

  /** The three-way result shape of `LODataset.__getitem__`. */
  function Shape(items: seq<Term>): (v: Value)
    ensures v.Absent? <==> |items| == 0
    ensures v.Single? <==> |items| == 1
    ensures v.Many? <==> |items| >= 2
    ensures v.Single? ==> v.value == items[0]
    ensures v.Many? ==> v.values == items
  {
    if items == [] then Absent
    else if |items| == 1 then Single(items[0])
    else Many(items)
  }

  /** The values a result stands for, whatever its shape. */
  function Items(v: Value): seq<Term> {
    match v
    case Absent => []
    case Single(x) => [x]
    case Many(xs) => xs
  }

  /** Shaping loses nothing: the shaped result still determines the collected objects. */
  lemma ShapeRoundTrip(items: seq<Term>)
    ensures Items(Shape(items)) == items
  {
    if |items| == 1 {
      assert items == [items[0]];
    }
  }

  /** `dataset[key]`: the shaped objects of `(resource, namespace + key, ?)`. */
  function Lookup(g: Graph, resource: string, key: string): Value {
    Shape(Objects(g, resource, Predicate(key)))
  }

  /** Namespace choice: Dublin Core for the ten listed keys, VoID for every other key. */
  lemma LookupNamespace(g: Graph, resource: string, key: string)
    ensures key in DCTERMS_KEYS ==> Lookup(g, resource, key) == Shape(Objects(g, resource, DCTERMS_NS + key))
    ensures key !in DCTERMS_KEYS ==> Lookup(g, resource, key) == Shape(Objects(g, resource, VOID_NS + key))
  {
  }

  /** The date or date-time a dataset's `dcterms:modified` holds, if it holds exactly one. */
  function Modified(g: Graph, resource: string): Option<Term> {
    match Lookup(g, resource, "modified")
    case Single(t) => if Temporal(t) then Some(t) else None
    case _ => None
  }

  /** When `Modified` gives a timestamp, the `modified` lookup is that one timestamp. */
  lemma ModifiedLookup(g: Graph, resource: string)
    requires Modified(g, resource).Some?
    ensures Lookup(g, resource, "modified") == Single(Modified(g, resource).value)
    ensures Temporal(Modified(g, resource).value)
  {
  }

  /** `Modified` reads the single `dcterms:modified` object, when it is a date or a date-time. */
  lemma ModifiedSpec(g: Graph, resource: string)
    ensures var objs := Objects(g, resource, DCTERMS_NS + "modified");
      Modified(g, resource) == if |objs| == 1 && Temporal(objs[0]) then Some(objs[0]) else None
  {
    assert "modified" in DCTERMS_KEYS;
  }

  // ---------------------------------------------------------------------------
  // Dataset discovery

  predicate DeclaresDataset(t: Triple) {
    t.pred == RDF_TYPE && t.obj == Iri(VOID_DATASET)
  }

  /** The subjects of the triples `(?, rdf:type, void:Dataset)`, in iteration order. */
  function DatasetSubjects(g: Graph): seq<string> {
    if g == [] then []
    else DatasetSubjects(g[..|g| - 1]) +
         (if DeclaresDataset(g[|g| - 1]) then [g[|g| - 1].subject] else [])
  }

  lemma DatasetSubjectsSnoc(g: Graph, t: Triple)
    ensures DatasetSubjects(g + [t]) == DatasetSubjects(g) + (if DeclaresDataset(t) then [t.subject] else [])
  {
    assert (g + [t])[..|g + [t]| - 1] == g;
  }

  /** Discovery finds exactly the subjects typed `void:Dataset`. */
  lemma {:induction false} DatasetSubjectsExactly(g: Graph, s: string)
    ensures s in DatasetSubjects(g) <==>
            exists i :: 0 <= i < |g| && g[i] == Triple(s, RDF_TYPE, Iri(VOID_DATASET))
  {
    if g != [] {
      var init := g[..|g| - 1];
      DatasetSubjectsExactly(init, s);
      if s in DatasetSubjects(init) {
        var i :| 0 <= i < |init| && init[i] == Triple(s, RDF_TYPE, Iri(VOID_DATASET));
        assert g[i] == init[i];
      }
      if exists i :: 0 <= i < |g| && g[i] == Triple(s, RDF_TYPE, Iri(VOID_DATASET)) {
        var i :| 0 <= i < |g| && g[i] == Triple(s, RDF_TYPE, Iri(VOID_DATASET));
        if i < |init| {
          assert init[i] == g[i];
        }
      }
    }
  }

  /** In a graph without repeated triples, every dataset is discovered once. */
  lemma {:induction false} DatasetSubjectsDistinct(g: Graph)
    requires Distinct(g)
    ensures NoDuplicates(DatasetSubjects(g))
  {
    if g != [] {
      var n := |g| - 1;
      var init := g[..n];
      NoDuplicatesInit(g);
      DatasetSubjectsDistinct(init);
      if DeclaresDataset(g[n]) {
        var x := g[n].subject;
        assert g[n] == Triple(x, RDF_TYPE, Iri(VOID_DATASET));
        forall i | 0 <= i < |init|
          ensures init[i] != Triple(x, RDF_TYPE, Iri(VOID_DATASET))
        {
          assert init[i] == g[i];
        }
        DatasetSubjectsExactly(init, x);
        NoDuplicatesSnoc(DatasetSubjects(init), x);
      }
    }
  }

  // ---------------------------------------------------------------------------
  // Identifiers: `str.strip()` and the lookup by id

  /** The characters Python's `str.isspace` accepts, which `strip()` removes. */
  predicate IsSpace(c: char) {
    c in SPACES
  }

  const SPACES: set<char> := {
    ' ', '\t', '\n', '\U{B}', '\U{C}', '\r', '\U{1C}', '\U{1D}', '\U{1E}', '\U{1F}',
    '\U{85}', '\U{A0}', '\U{1680}', '\U{2000}', '\U{2001}', '\U{2002}', '\U{2003}',
    '\U{2004}', '\U{2005}', '\U{2006}', '\U{2007}', '\U{2008}', '\U{2009}', '\U{200A}',
    '\U{2028}', '\U{2029}', '\U{202F}', '\U{205F}', '\U{3000}'}


  /** The number of whitespace characters `s` starts with. */
  function Leading(s: string): (n: nat)
    ensures n <= |s|
    ensures n < |s| ==> !IsSpace(s[n])
    ensures forall k :: 0 <= k < n ==> IsSpace(s[k])
  {
    if s != [] && IsSpace(s[0]) then 1 + Leading(s[1..]) else 0
  }

  /** The number of whitespace characters `s` ends with. */
  function Trailing(s: string): (n: nat)
    ensures n <= |s|
    ensures n < |s| ==> !IsSpace(s[|s| - 1 - n])
    ensures forall k :: |s| - n <= k < |s| ==> IsSpace(s[k])
  {
    if s != [] && IsSpace(s[|s| - 1]) then 1 + Trailing(s[..|s| - 1]) else 0
  }

  /** Where the part `strip()` keeps ends: after the trailing whitespace, but never before it starts. */
  function StripEnd(s: string): (j: nat)
    ensures Leading(s) <= j <= |s|
  {
    if Leading(s) == |s| then |s| else |s| - Trailing(s)
  }

  /**
   * `str.strip()`: it keeps one contiguous part of `s`, starting where the
   * leading whitespace ends; everything before and after that part is
   * whitespace, and the part neither starts nor ends with whitespace.
   */
  function Strip(s: string): (r: string)
    ensures Leading(s) + |r| <= |s| && r == s[Leading(s)..Leading(s) + |r|]
    ensures forall k :: 0 <= k < Leading(s) ==> IsSpace(s[k])
    ensures forall k :: Leading(s) + |r| <= k < |s| ==> IsSpace(s[k])
    ensures r != [] ==> !IsSpace(r[0]) && !IsSpace(r[|r| - 1])
  {
    s[Leading(s)..StripEnd(s)]
  }

  /** Stripping twice changes nothing more. */
  lemma StripIdempotent(s: string)
    ensures Strip(Strip(s)) == Strip(s)
  {
  }

  /** The ids of a list of resources. */
  function Ids(resources: seq<string>): (r: seq<string>)
    ensures |r| == |resources| && forall k :: 0 <= k < |r| ==> r[k] == Strip(resources[k])
  {
    seq(|resources|, k requires 0 <= k < |resources| => Strip(resources[k]))
  }

  /** The positions of `ids` equal to `key`: the comprehension in `__getitem__`. */
  function MatchIndices(ids: seq<string>, key: string): (r: seq<nat>)
    ensures forall k :: 0 <= k < |r| ==> r[k] < |ids| && ids[r[k]] == key
    ensures forall i :: 0 <= i < |ids| && ids[i] == key ==> i in r
    ensures forall a, b :: 0 <= a < b < |r| ==> r[a] < r[b]
  {
    if ids == [] then []
    else
      var n := |ids| - 1;
      MatchIndices(ids[..n], key) + (if ids[n] == key then [n] else [])
  }

  /** The index `desc[key]` picks: only a match that is the only one. */
  function SelectIndex(ids: seq<string>, key: string): (r: Option<nat>)
    ensures r.Some? ==> r.value < |ids| && ids[r.value] == key
  {
    var m := MatchIndices(ids, key);
    if |m| == 1 then Some(m[0]) else None
  }

  /** Position `i` holds `key` and no other position does. */
  predicate OnlyMatch(ids: seq<string>, key: string, i: int) {
    0 <= i < |ids| && ids[i] == key && forall j :: 0 <= j < |ids| && ids[j] == key ==> j == i
  }

  /** `desc[key]` finds a dataset exactly when one and only one discovered dataset has that id. */
  lemma SelectIndexUnique(ids: seq<string>, key: string)
    ensures SelectIndex(ids, key).Some? ==> OnlyMatch(ids, key, SelectIndex(ids, key).value)
    ensures forall i :: OnlyMatch(ids, key, i) ==> SelectIndex(ids, key) == Some(i)
  {
    var m := MatchIndices(ids, key);
    if |m| == 1 {
      forall j | 0 <= j < |ids| && ids[j] == key
        ensures j == m[0]
      {
        assert j in m;
      }
    }
    forall i | OnlyMatch(ids, key, i)
      ensures SelectIndex(ids, key) == Some(i)
    {
      assert i in m;
      if |m| >= 2 {
        TwoMatches(ids, key);
      }
    }
  }

  lemma TwoMatches(ids: seq<string>, key: string)
    requires |MatchIndices(ids, key)| >= 2
    ensures exists a, b :: 0 <= a < b < |ids| && ids[a] == key && ids[b] == key
  {
    var m := MatchIndices(ids, key);
    assert 0 <= m[0] < m[1] < |ids| && ids[m[0]] == key && ids[m[1]] == key;
  }

  // ---------------------------------------------------------------------------
  // Objects

  /** One fetched VoID document: its fetch parameters, its graph, and the cache of discovered datasets. */
  class Description {
    const uri: string
    const wellKnown: bool
    /** The request issued to the document fetcher while constructing. */
    const requested: Option<string>
    const g: Graph
    var datasets: Option<seq<Dataset>>

    ghost predicate Valid()
      reads this
    {
      datasets.Some? ==>
        Resources(datasets.value) == DatasetSubjects(g) &&
        forall d :: d in datasets.value ==> d.desc == this
    }

    /** Builds the description from the parameters and the triples the fetched document parsed to. */
    constructor (uri: string, wellKnown: bool, fetched: Graph)
      requires Distinct(fetched)
      ensures Valid()
      ensures this.uri == uri && this.wellKnown == wellKnown
      ensures requested == RequestUri(uri, wellKnown)
      ensures g == fetched && datasets == None
    {
      this.uri := uri;
      this.wellKnown := wellKnown;
      requested := RequestUri(uri, wellKnown);
      g := fetched;
      datasets := None;
    }

    /** `get_datasets`: discovers the datasets on the first call and returns the cache afterwards. */
    method GetDatasets() returns (ds: seq<Dataset>)
      requires Valid()
      modifies this
      ensures Valid() && datasets == Some(ds)
      ensures old(datasets).Some? ==> ds == old(datasets).value
      ensures old(datasets).None? ==> forall d :: d in ds ==> fresh(d)
      ensures Resources(ds) == DatasetSubjects(g)
      ensures forall d :: d in ds ==> d.desc == this
    {
      if datasets.None? {
        var found: seq<Dataset> := [];
        for i := 0 to |g|
          invariant Resources(found) == DatasetSubjects(g[..i])
          invariant forall d :: d in found ==> fresh(d) && d.desc == this
        {
          assert g[..i + 1] == g[..i] + [g[i]];
          DatasetSubjectsSnoc(g[..i], g[i]);
          if g[i].pred == RDF_TYPE && g[i].obj == Iri(VOID_DATASET) {
            var d := new Dataset(g[i].subject, this);
            ResourcesSnoc(found, d);
            found := found + [d];
          }
        }
        assert g[..|g|] == g;
        datasets := Some(found);
      }
      ds := datasets.value;
    }

    /** `desc[key]`: the dataset whose id is `key` when exactly one has it, else `None`. */
    method Get(key: string) returns (r: Option<Dataset>)
      requires Valid()
      modifies this
      ensures Valid() && datasets.Some?
      ensures old(datasets).Some? ==> datasets == old(datasets)
      ensures |datasets.value| == |DatasetSubjects(g)|
      ensures match SelectIndex(Ids(DatasetSubjects(g)), key)
              case None => r == None
              case Some(i) => r == Some(datasets.value[i])
      ensures r.Some? ==> r.value.desc == this && r.value.Id() == key
    {
      var ds := GetDatasets();
      var matches := MatchIndices(Ids(Resources(ds)), key);
      if |matches| == 1 {
        r := Some(ds[matches[0]]);
      } else {
        r := None;
      }
    }
  }

  /** One `void:Dataset` entity of a description. */
  class Dataset {
    const resource: string
    const desc: Description

    constructor (resource: string, desc: Description)
      ensures this.resource == resource && this.desc == desc
    {
      this.resource := resource;
      this.desc := desc;
    }

    /** The resource with surrounding whitespace stripped: a part of it that is its own id. */
    function Id(): (r: string)
      ensures Leading(resource) + |r| <= |resource|
      ensures r == resource[Leading(resource)..Leading(resource) + |r|]
      ensures forall k :: 0 <= k < Leading(resource) ==> IsSpace(resource[k])
      ensures forall k :: Leading(resource) + |r| <= k < |resource| ==> IsSpace(resource[k])
      ensures r != [] ==> !IsSpace(r[0]) && !IsSpace(r[|r| - 1])
      ensures Strip(r) == r
    {
      StripIdempotent(resource);
      Strip(resource)
    }

    /** `dataset[key]`: collects the matching objects from the graph, then shapes them. */
    method Get(key: string) returns (v: Value)
      ensures v == Lookup(desc.g, resource, key)
    {
      var pred := if key in DCTERMS_KEYS then DCTERMS_NS else VOID_NS;
      pred := pred + key;
      var g := desc.g;
      var items: seq<Term> := [];
      for i := 0 to |g|
        invariant items == Objects(g[..i], resource, pred)
      {
        assert g[..i + 1] == g[..i] + [g[i]];
        ObjectsSnoc(g[..i], g[i], resource, pred);
        if g[i].subject == resource && g[i].pred == pred {
          items := items + [g[i].obj];
        }
      }
      assert g[..|g|] == g;
      if items == [] {
        v := Absent;
      } else if |items| == 1 {
        v := Single(items[0]);
      } else {
        v := Many(items);
      }
    }
  }

  /** The resources of a list of datasets, in order. */
  function Resources(ds: seq<Dataset>): (r: seq<string>)
    ensures |r| == |ds| && forall k :: 0 <= k < |ds| ==> r[k] == ds[k].resource
  {
    seq(|ds|, k requires 0 <= k < |ds| => ds[k].resource)
  }

  lemma ResourcesSnoc(ds: seq<Dataset>, d: Dataset)
    ensures Resources(ds + [d]) == Resources(ds) + [d.resource]
  {
  }
}
