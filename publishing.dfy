/**
 * The IPFS publisher of one dataset: it watches the dataset's `dcterms:modified`
 * timestamp and, when flagged, assembles a snapshot folder (the serialized
 * description plus the downloaded dumps), adds it to IPFS and records the
 * folder's hash. Every filesystem, network and IPFS call is recorded as an
 * `Effect`; the answers the environment gives are the `Env` parameter.
 */
module Publishing {
  import opened Wrappers
  import opened Timestamps
  import opened Void

  /** The only publishing style that is implemented. */
  const FOLDER_STYLE := "folder"

  /** One entry of the list the IPFS `add` call returns. */
  datatype AddEntry = AddEntry(name: string, hash: string)

  /** The side effects of `publish`, in the order they happen. */
  datatype Effect =
    | MakeDir(folder: string)
    | Serialize(graph: Graph)
    | Download(dump: Option<Term>)
    | AddToIpfs(folder: string)
    | RemoveTree(folder: string)

  datatype Outcome = Skipped | Published | UnsupportedStyle | DownloadFailed

  /**
   * The environment's answers during a publish: whether the folder already
   * exists, the position of a download of a dump URL that raises (if any), and
   * the result list of the IPFS `add`. Downloading `None` raises whatever the
   * environment says.
   */
  datatype Env = Env(folderExists: bool, failingDownload: Option<nat>, added: seq<AddEntry>)

  /** What one publish does: its outcome, its effects, and the hash recorded after it. */
  datatype Run = Run(outcome: Outcome, effects: seq<Effect>, addr: Option<string>)

  /** The change-detection state: the dirty flag and the stored `modified` watermark. */
  datatype Watch = Watch(dirty: bool, watermark: Timestamp)

  /** How `update` ends: with the comparison made, or with the `TypeError` of comparing a date with a date-time. */
  datatype UpdateOutcome = Compared | KindMismatch

  // ---------------------------------------------------------------------------
  // update

  /** The state after `update` reads the timestamp `t`. */
  function Observe(w: Watch, t: Timestamp): (r: Watch)
    ensures r.dirty <==> w.dirty || Before(w.watermark, t)
    ensures r.watermark == t
  {
    Watch(w.dirty || Before(w.watermark, t), t)
  }

  /** The state after a series of updates reading `ts` in turn. */
  function ObserveAll(w: Watch, ts: seq<Timestamp>): Watch {
    if ts == [] then w else Observe(ObserveAll(w, ts[..|ts| - 1]), ts[|ts| - 1])
  }

  /** The watermark in force when the `i`-th update of the series starts. */
  function MarkBefore(w: Watch, ts: seq<Timestamp>, i: nat): Timestamp
    requires i < |ts|
  {
    if i == 0 then w.watermark else ts[i - 1]
  }

  /** Over a series of updates the watermark is the last timestamp read, whatever came before. */
  lemma {:induction false} ObserveAllMark(w: Watch, ts: seq<Timestamp>)
    ensures ObserveAll(w, ts).watermark == if ts == [] then w.watermark else ts[|ts| - 1]
  {
  }

  /** Whether some update of the series read a timestamp strictly newer than the watermark before it. */
  function AnyRaised(w: Watch, ts: seq<Timestamp>): bool {
    if ts == [] then false
    else AnyRaised(w, ts[..|ts| - 1]) || Before(MarkBefore(w, ts, |ts| - 1), ts[|ts| - 1])
  }

  lemma {:induction false} ObserveAllRaised(w: Watch, ts: seq<Timestamp>)
    ensures ObserveAll(w, ts).dirty == (w.dirty || AnyRaised(w, ts))
  {
    if ts != [] {
      var n := |ts| - 1;
      ObserveAllRaised(w, ts[..n]);
      ObserveAllMark(w, ts[..n]);
      assert MarkBefore(w, ts, n) == ObserveAll(w, ts[..n]).watermark;
    }
  }

  lemma {:induction false} AnyRaisedExists(w: Watch, ts: seq<Timestamp>)
    ensures AnyRaised(w, ts) <==> exists i :: 0 <= i < |ts| && Before(MarkBefore(w, ts, i), ts[i])
  {
    if ts != [] {
      var n := |ts| - 1;
      var init := ts[..n];
      AnyRaisedExists(w, init);
      if AnyRaised(w, init) {
        var j :| 0 <= j < n && Before(MarkBefore(w, init, j), init[j]);
        assert MarkBefore(w, init, j) == MarkBefore(w, ts, j) && init[j] == ts[j];
      }
      if exists i :: 0 <= i < |ts| && Before(MarkBefore(w, ts, i), ts[i]) {
        var i :| 0 <= i < |ts| && Before(MarkBefore(w, ts, i), ts[i]);
        if i < n {
          assert MarkBefore(w, init, i) == MarkBefore(w, ts, i) && init[i] == ts[i];
        }
      }
    }
  }

  /**
   * The flag is up after a series of updates exactly when it was up at the
   * start or some update read a timestamp strictly newer than the watermark
   * in force before it.
   */
  lemma ObserveAllDirty(w: Watch, ts: seq<Timestamp>)
    ensures ObserveAll(w, ts).dirty <==>
            w.dirty || exists i :: 0 <= i < |ts| && Before(MarkBefore(w, ts, i), ts[i])
  {
    ObserveAllRaised(w, ts);
    AnyRaisedExists(w, ts);
  }

  /** The watermark is not monotonic: an older timestamp replaces a newer one, and the flag stays down. */
  lemma WatermarkMovesBack(w: Watch, t: Timestamp)
    requires !w.dirty && Before(t, w.watermark)
    ensures Observe(w, t) == Watch(false, t)
  {
    BeforeStrictTotalOrder(t, w.watermark, t);
  }

  /**
   * Because of that, a timestamp that goes back and then returns to a version
   * already published raises the flag again.
   */
  lemma ReturnRaisesFlag(older: Timestamp, newer: Timestamp)
    requires Before(older, newer)
    ensures ObserveAll(Watch(false, newer), [older, newer]) == Watch(true, newer)
  {
    BeforeStrictTotalOrder(older, newer, older);
    assert [older, newer][..1] == [older];
    assert [older][..0] == [];
  }

  // ---------------------------------------------------------------------------
  // publish: the snapshot folder

  /** `str.replace("/", "_")`. */
  function SlashesToUnderscores(id: string): (r: string)
    ensures |r| == |id| && '/' !in r
    ensures forall k :: 0 <= k < |id| && id[k] != '/' ==> r[k] == id[k]
    ensures forall k :: 0 <= k < |id| && id[k] == '/' ==> r[k] == '_'
  {
    seq(|id|, k requires 0 <= k < |id| => if id[k] == '/' then '_' else id[k])
  }

  /**
   * The snapshot folder name: the id with `/` replaced, then the formatted
   * timestamp; 19 characters longer than the id, and a single path component.
   */
  function FolderName(id: string, t: Timestamp): (name: string)
    requires FourDigitYear(t)
    ensures |name| == |id| + 19 && '/' !in name
  {
    SlashFree(id, t);
    SlashesToUnderscores(id) + Format(t)
  }

  lemma SlashFree(id: string, t: Timestamp)
    requires FourDigitYear(t)
    ensures '/' !in SlashesToUnderscores(id) + Format(t)
  {
    var name := SlashesToUnderscores(id) + Format(t);
    FormatCharacters(t);
    forall k | 0 <= k < |name|
      ensures name[k] != '/'
    {
      if k >= |id| {
        assert name[k] == Format(t)[k - |id|];
      }
    }
  }

  /** The folder name starts with the rewritten id, and the timestamp can be read back from its end. */
  lemma FolderNameLayout(id: string, t: Timestamp)
    requires FourDigitYear(t)
    ensures var name := FolderName(id, t);
      name[..|id|] == SlashesToUnderscores(id) && ReadStamp(name[|id|..]) == DateFields(t)
  {
    var name := FolderName(id, t);
    assert name[|id|..] == Format(t);
    FormatRoundTrip(t);
  }

  /** One dataset published at two different seconds gets two different folders. */
  lemma FolderNamesDiffer(id: string, t1: Timestamp, t2: Timestamp)
    requires FourDigitYear(t1) && FourDigitYear(t2)
    requires DateFields(t1) != DateFields(t2)
    ensures FolderName(id, t1) != FolderName(id, t2)
  {
    FolderNameLayout(id, t1);
    FolderNameLayout(id, t2);
  }

  /** Different ids can share a folder: `/` and `_` are not told apart. */
  lemma FolderNamesCollide(t: Timestamp)
    requires FourDigitYear(t)
    ensures FolderName("a/b", t) == FolderName("a_b", t)
  {
    assert SlashesToUnderscores("a/b") == "a_b";
    assert SlashesToUnderscores("a_b") == "a_b";
  }

  // ---------------------------------------------------------------------------
  // publish: dumps and downloads

  /** The dumps to download: a list as it is, anything else (`None` included) as a one-element list. */
  function Normalise(v: Value): (r: seq<Option<Term>>)
    ensures v.Many? ==> |r| == |v.values| && forall k :: 0 <= k < |r| ==> r[k] == Some(v.values[k])
    ensures v.Absent? ==> r == [None]
    ensures v.Single? ==> r == [Some(v.value)]
  {
    match v
    case Absent => [None]
    case Single(x) => [Some(x)]
    case Many(xs) => seq(|xs|, k requires 0 <= k < |xs| => Some(xs[k]))
  }

  /**
   * Of the objects collected for `void:dataDump`, each is downloaded once, in
   * order; when there are none, a single `None` is.
   */
  lemma NormaliseCollected(items: seq<Term>)
    ensures |items| == 0 ==> Normalise(Shape(items)) == [None]
    ensures |items| > 0 ==>
              |Normalise(Shape(items))| == |items| &&
              forall k :: 0 <= k < |items| ==> Normalise(Shape(items))[k] == Some(items[k])
  {
  }

  function Downloads(dumps: seq<Option<Term>>): (e: seq<Effect>)
    ensures |e| == |dumps| && forall k :: 0 <= k < |e| ==> e[k] == Download(dumps[k])
  {
    seq(|dumps|, k requires 0 <= k < |dumps| => Download(dumps[k]))
  }

  /** The dumps an effect log downloads, in order. */
  function DownloadTargets(e: seq<Effect>): seq<Option<Term>> {
    if e == [] then []
    else DownloadTargets(e[..|e| - 1]) +
         (if e[|e| - 1].Download? then [e[|e| - 1].dump] else [])
  }

  lemma {:induction false} DownloadTargetsAppend(a: seq<Effect>, b: seq<Effect>)
    ensures DownloadTargets(a + b) == DownloadTargets(a) + DownloadTargets(b)
  {
    if b == [] {
      assert a + b == a;
    } else {
      var n := |b| - 1;
      assert (a + b)[..|a + b| - 1] == a + b[..n];
      DownloadTargetsAppend(a, b[..n]);
    }
  }

  lemma {:induction false} DownloadTargetsOfDownloads(dumps: seq<Option<Term>>)
    ensures DownloadTargets(Downloads(dumps)) == dumps
  {
    if dumps != [] {
      var n := |dumps| - 1;
      assert Downloads(dumps)[..n] == Downloads(dumps[..n]);
      DownloadTargetsOfDownloads(dumps[..n]);
      assert dumps == dumps[..n] + [dumps[n]];
    }
  }

  lemma DownloadsSnoc(dumps: seq<Option<Term>>, i: nat)
    requires i < |dumps|
    ensures Downloads(dumps[..i + 1]) == Downloads(dumps[..i]) + [Download(dumps[i])]
  {
  }

  // ---------------------------------------------------------------------------
  // publish: the recorded hash

  /** The hash of the last `add` entry named `folder`, or `prev` when none is. */
  function LastHash(res: seq<AddEntry>, folder: string, prev: Option<string>): (r: Option<string>)
    ensures r == prev || exists i :: 0 <= i < |res| && res[i].name == folder && r == Some(res[i].hash)
  {
    if res == [] then prev
    else if res[|res| - 1].name == folder then Some(res[|res| - 1].hash)
    else LastHash(res[..|res| - 1], folder, prev)
  }

  /** The recorded hash is that of the last entry named as the folder; without one it stays as it was. */
  lemma {:induction false} LastHashNone(res: seq<AddEntry>, folder: string, prev: Option<string>)
    requires forall k :: 0 <= k < |res| ==> res[k].name != folder
    ensures LastHash(res, folder, prev) == prev
  {
    if res != [] {
      var n := |res| - 1;
      assert res[n].name != folder;
      assert forall k :: 0 <= k < n ==> res[..n][k] == res[k];
      LastHashNone(res[..n], folder, prev);
    }
  }

  lemma {:induction false} LastHashLast(res: seq<AddEntry>, folder: string, prev: Option<string>, i: nat)
    requires i < |res| && res[i].name == folder
    requires forall j :: i < j < |res| ==> res[j].name != folder
    ensures LastHash(res, folder, prev) == Some(res[i].hash)
  {
    var n := |res| - 1;
    if i < n {
      assert res[n].name != folder;
      assert res[..n][i] == res[i];
      assert forall j :: i < j < n ==> res[..n][j] == res[j];
      LastHashLast(res[..n], folder, prev, i);
    }
  }


  /** The loop over the `add` result that overwrites the recorded hash. */
  method SelectHash(res: seq<AddEntry>, folder: string, prev: Option<string>) returns (addr: Option<string>)
    ensures addr == LastHash(res, folder, prev)
  {
    addr := prev;
    for i := 0 to |res|
      invariant addr == LastHash(res[..i], folder, prev)
    {
      assert res[..i + 1][..i] == res[..i];
      if res[i].name == folder {
        addr := Some(res[i].hash);
      }
    }
    assert res[..|res|] == res;
  }

  // ---------------------------------------------------------------------------
  // publish: the whole run

  /** Whether the `i`-th download raises: there is no URL to fetch, or the environment says so. */
  predicate RaisesAt(list: seq<Option<Term>>, failing: Option<nat>, i: nat)
    requires i < |list|
  {
    list[i].None? || failing == Some(i)
  }

  lemma RaisesAtInit(list: seq<Option<Term>>, failing: Option<nat>, n: nat)
    requires n <= |list|
    ensures forall j :: 0 <= j < n ==> RaisesAt(list[..n], failing, j) == RaisesAt(list, failing, j)
  {
  }

  /** The position of the first download that raises, if any does. */
  function FirstFailure(list: seq<Option<Term>>, failing: Option<nat>): (r: Option<nat>)
    ensures r.Some? ==> r.value < |list| && RaisesAt(list, failing, r.value) &&
                        forall j :: 0 <= j < r.value ==> !RaisesAt(list, failing, j)
    ensures r.None? ==> forall j :: 0 <= j < |list| ==> !RaisesAt(list, failing, j)
  {
    if list == [] then None
    else
      var n := |list| - 1;
      var r := FirstFailure(list[..n], failing);
      RaisesAtInit(list, failing, n);
      if r.Some? then r
      else if RaisesAt(list, failing, n) then Some(n)
      else None
  }

  /**
   * One call of `publish(style)` with the dirty flag `dirty`, for the dataset `id`
   * whose watermark is `stamp`, whose description holds `graph` and whose
   * `dataDump` lookup gave `dumps`.
   */
  function PublishRun(dirty: bool, style: string, id: string, stamp: Timestamp, graph: Graph,
                      dumps: Value, env: Env, addr: Option<string>): (r: Run)
    requires dirty && style == FOLDER_STYLE ==> FourDigitYear(stamp)
    ensures !dirty ==> r == Run(Skipped, [], addr)
    ensures dirty && style != FOLDER_STYLE ==> r == Run(UnsupportedStyle, [], addr)
    ensures r.outcome == Published <==>
            dirty && style == FOLDER_STYLE && FirstFailure(Normalise(dumps), env.failingDownload).None?
    ensures r.outcome != Published ==> r.addr == addr
  {
    if !dirty then Run(Skipped, [], addr)
    else if style != FOLDER_STYLE then Run(UnsupportedStyle, [], addr)
    else
      var folder := FolderName(id, stamp);
      var list := Normalise(dumps);
      var staged := Staging(env.folderExists, folder, graph);
      var failure := FirstFailure(list, env.failingDownload);
      if failure.Some? then
        Run(DownloadFailed, staged + Downloads(list[..failure.value + 1]), addr)
      else
        Run(Published, staged + Downloads(list) + Finishing(folder), LastHash(env.added, folder, addr))
  }

  lemma {:induction false} DownloadFree(e: seq<Effect>)
    requires forall i :: 0 <= i < |e| ==> !e[i].Download?
    ensures DownloadTargets(e) == []
  {
    if e != [] {
      DownloadFree(e[..|e| - 1]);
    }
  }

  /** The effects before any download: create the folder unless it exists, then serialize the description. */
  function Staging(folderExists: bool, folder: string, graph: Graph): seq<Effect> {
    (if folderExists then [] else [MakeDir(folder)]) + [Serialize(graph)]
  }

  /** The effects after the downloads: add the folder to IPFS, then remove it. */
  function Finishing(folder: string): seq<Effect> {
    [AddToIpfs(folder), RemoveTree(folder)]
  }

  /** Neither the staging nor the finishing effects download anything. */
  lemma NoDownloadsAround(folderExists: bool, folder: string, graph: Graph)
    ensures DownloadTargets(Staging(folderExists, folder, graph)) == []
    ensures DownloadTargets(Finishing(folder)) == []
  {
    DownloadFree(Staging(folderExists, folder, graph));
    DownloadFree(Finishing(folder));
  }

  /**
   * The layout of a successful publish's effects: the staging effects, then
   * exactly one download per dump in order, then the add and the removal.
   */
  lemma PublishedLayout(folderExists: bool, folder: string, graph: Graph, list: seq<Option<Term>>)
    ensures var e := Staging(folderExists, folder, graph) + Downloads(list) + Finishing(folder);
      var s := if folderExists then 0 else 1;
      |e| == s + 1 + |list| + 2 &&
      (!folderExists ==> e[0] == MakeDir(folder)) &&
      e[s] == Serialize(graph) &&
      (forall i :: 0 <= i < |e| && e[i].Download? ==> s < i < |e| - 2) &&
      DownloadTargets(e) == list &&
      e[|e| - 2] == AddToIpfs(folder) && e[|e| - 1] == RemoveTree(folder) &&
      (forall i :: 0 <= i < |e| - 2 ==> !e[i].AddToIpfs? && !e[i].RemoveTree?)
  {
    PublishedOrder(folderExists, folder, graph, list);
    PublishedTargets(folderExists, folder, graph, list);
  }

  lemma PublishedOrder(folderExists: bool, folder: string, graph: Graph, list: seq<Option<Term>>)
    ensures var e := Staging(folderExists, folder, graph) + Downloads(list) + Finishing(folder);
      var s := if folderExists then 0 else 1;
      |e| == s + 1 + |list| + 2 &&
      (!folderExists ==> e[0] == MakeDir(folder)) &&
      e[s] == Serialize(graph) &&
      (forall i :: 0 <= i < |e| && e[i].Download? ==> s < i < |e| - 2) &&
      e[|e| - 2] == AddToIpfs(folder) && e[|e| - 1] == RemoveTree(folder) &&
      (forall i :: 0 <= i < |e| - 2 ==> !e[i].AddToIpfs? && !e[i].RemoveTree?)
  {
  }

  lemma PublishedTargets(folderExists: bool, folder: string, graph: Graph, list: seq<Option<Term>>)
    ensures DownloadTargets(Staging(folderExists, folder, graph) + Downloads(list) + Finishing(folder)) == list
  {
    var staged := Staging(folderExists, folder, graph);
    NoDownloadsAround(folderExists, folder, graph);
    DownloadTargetsAppend(staged + Downloads(list), Finishing(folder));
    DownloadTargetsAppend(staged, Downloads(list));
    DownloadTargetsOfDownloads(list);
  }

  /** The effects of a publish whose download `attempted[|attempted| - 1]` raises. */
  lemma FailedLayout(folderExists: bool, folder: string, graph: Graph, attempted: seq<Option<Term>>)
    ensures var e := Staging(folderExists, folder, graph) + Downloads(attempted);
      DownloadTargets(e) == attempted &&
      forall i :: 0 <= i < |e| ==> !e[i].AddToIpfs? && !e[i].RemoveTree?
  {
    FailedTargets(folderExists, folder, graph, attempted);
    FailedUnfinished(folderExists, folder, graph, attempted);
  }

  lemma FailedTargets(folderExists: bool, folder: string, graph: Graph, attempted: seq<Option<Term>>)
    ensures DownloadTargets(Staging(folderExists, folder, graph) + Downloads(attempted)) == attempted
  {
    NoDownloadsAround(folderExists, folder, graph);
    DownloadTargetsAppend(Staging(folderExists, folder, graph), Downloads(attempted));
    DownloadTargetsOfDownloads(attempted);
  }

  lemma FailedUnfinished(folderExists: bool, folder: string, graph: Graph, attempted: seq<Option<Term>>)
    ensures var e := Staging(folderExists, folder, graph) + Downloads(attempted);
      forall i :: 0 <= i < |e| ==> !e[i].AddToIpfs? && !e[i].RemoveTree?
  {
    var staged := Staging(folderExists, folder, graph);
    var tail := Downloads(attempted);
    var e: seq<Effect> := staged + tail;
    forall i | 0 <= i < |e|
      ensures !e[i].AddToIpfs? && !e[i].RemoveTree?
    {
      if i < |staged| {
        assert e[i] == staged[i];
      } else {
        assert e[i] == tail[i - |staged|];
      }
    }
  }



  /**
   * A successful publish: the folder is created unless it exists, the
   * description is serialized before any download, every dump is downloaded
   * once in order, and only then is the folder added to IPFS and removed; the
   * recorded hash is the one the `add` result gives the folder.
   */
  lemma PublishedRun(style: string, id: string, stamp: Timestamp, graph: Graph,
                     dumps: Value, env: Env, addr: Option<string>)
    requires style == FOLDER_STYLE && FourDigitYear(stamp)
    requires PublishRun(true, style, id, stamp, graph, dumps, env, addr).outcome == Published
    ensures var r := PublishRun(true, style, id, stamp, graph, dumps, env, addr);
      var folder := FolderName(id, stamp);
      r.effects == Staging(env.folderExists, folder, graph) + Downloads(Normalise(dumps)) + Finishing(folder) &&
      DownloadTargets(r.effects) == Normalise(dumps) &&
      r.addr == LastHash(env.added, folder, addr)
  {
    PublishedLayout(env.folderExists, FolderName(id, stamp), graph, Normalise(dumps));
  }

  /**
   * A download that raises ends the publish: the dumps up to and including it
   * were attempted in order, nothing reaches IPFS, the folder is not removed,
   * and the recorded hash is unchanged.
   */
  lemma FailedRun(style: string, id: string, stamp: Timestamp, graph: Graph,
                  dumps: Value, env: Env, addr: Option<string>)
    requires style == FOLDER_STYLE && FourDigitYear(stamp)
    requires FirstFailure(Normalise(dumps), env.failingDownload).Some?
    ensures var r := PublishRun(true, style, id, stamp, graph, dumps, env, addr);
      var attempted := Normalise(dumps)[..FirstFailure(Normalise(dumps), env.failingDownload).value + 1];
      r.outcome == DownloadFailed && r.addr == addr &&
      r.effects == Staging(env.folderExists, FolderName(id, stamp), graph) + Downloads(attempted) &&
      DownloadTargets(r.effects) == attempted &&
      forall i :: 0 <= i < |r.effects| ==> !r.effects[i].AddToIpfs? && !r.effects[i].RemoveTree?
  {
    var folder := FolderName(id, stamp);
    var attempted := Normalise(dumps)[..FirstFailure(Normalise(dumps), env.failingDownload).value + 1];
    assert PublishRun(true, style, id, stamp, graph, dumps, env, addr) ==
           Run(DownloadFailed, Staging(env.folderExists, folder, graph) + Downloads(attempted), addr);
    FailedLayout(env.folderExists, folder, graph, attempted);
  }

  /** A dataset without `void:dataDump` is never published: downloading `None` raises at once. */
  lemma MissingDumpFails(id: string, stamp: Timestamp, graph: Graph, env: Env, addr: Option<string>)
    requires FourDigitYear(stamp)
    ensures PublishRun(true, FOLDER_STYLE, id, stamp, graph, Absent, env, addr) ==
            Run(DownloadFailed, Staging(env.folderExists, FolderName(id, stamp), graph) + [Download(None)], addr)
  {
    var list := Normalise(Absent);
    assert FirstFailure(list, env.failingDownload) == Some(0);
    assert list[..1] == [None];
    assert Downloads([None]) == [Download(None)];
  }

  /**
   * The `"folder"` branch of `publish`, step by step: name and create the
   * folder, serialize the description, download the dumps in order, add the
   * folder to IPFS, pick the folder's hash out of the result, remove the folder.
   */
  method FolderSnapshot(id: string, stamp: Timestamp, graph: Graph, dumps: Value, env: Env,
                        addr: Option<string>) returns (r: Run)
    requires FourDigitYear(stamp)
    ensures r == PublishRun(true, FOLDER_STYLE, id, stamp, graph, dumps, env, addr)
  {
    var folder := SlashesToUnderscores(id);
    folder := folder + Format(stamp);
    assert folder == FolderName(id, stamp);
    var log: seq<Effect> := [];
    if !env.folderExists {
      log := log + [MakeDir(folder)];
    }
    log := log + [Serialize(graph)];
    assert log == Staging(env.folderExists, folder, graph);
    var list := Normalise(dumps);
    var downloaded, failure := DownloadAll(list, env.failingDownload);
    log := log + downloaded;
    if failure.Some? {
      return Run(DownloadFailed, log, addr);
    }
    log := log + [AddToIpfs(folder)];
    var hash := SelectHash(env.added, folder, addr);
    log := log + [RemoveTree(folder)];
    assert log == Staging(env.folderExists, folder, graph) + Downloads(list) + Finishing(folder);
    r := Run(Published, log, hash);
  }

  /** The download loop: downloads the dumps in order and stops after the first one that raises. */
  method DownloadAll(list: seq<Option<Term>>, failing: Option<nat>) returns (log: seq<Effect>, failure: Option<nat>)
    ensures failure == FirstFailure(list, failing)
    ensures failure.Some? ==> log == Downloads(list[..failure.value + 1])
    ensures failure.None? ==> log == Downloads(list)
  {
    log := [];
    for i := 0 to |list|
      invariant log == Downloads(list[..i])
      invariant forall j :: 0 <= j < i ==> !RaisesAt(list, failing, j)
    {
      DownloadsSnoc(list, i);
      log := log + [Download(list[i])];
      if list[i].None? || failing == Some(i) {
        assert RaisesAt(list, failing, i);
        return log, Some(i);
      }
    }
    assert list[..|list|] == list;
    failure := None;
  }


  // ---------------------------------------------------------------------------
  // The publisher object

  /**
   * The requirement `update` places on the re-fetched graph: a set of triples
   * that still holds the id, once, with a date or date-time `modified`.
   */
  predicate Reresolvable(g: Graph, id: string) {
    var subjects := DatasetSubjects(g);
    Distinct(g) &&
    match SelectIndex(Ids(subjects), id)
    case Some(i) => Modified(g, subjects[i]).Some?
    case None => false
  }

  /** The subject `desc[id]` resolves to in `g`. */
  function ResolvedSubject(g: Graph, id: string): string
    requires Reresolvable(g, id)
  {
    DatasetSubjects(g)[SelectIndex(Ids(DatasetSubjects(g)), id).value]
  }

  /** The `modified` term of that subject. */
  function ResolvedModified(g: Graph, id: string): Term
    requires Reresolvable(g, id)
  {
    Modified(g, ResolvedSubject(g, id)).value
  }

  /** Two temporal terms `>` can compare: both dates or both date-times. */
  predicate SameKind(a: Term, b: Term) {
    a.DateTime? == b.DateTime?
  }

  /**
   * The first half of `update`: a fresh description of the same URI (whose
   * document parsed to `fetched`), the dataset `id` in it, and its `modified`.
   */
  method Reload(uri: string, wellKnown: bool, fetched: Graph, id: string) returns (d: Dataset, modified: Term)
    requires Reresolvable(fetched, id)
    ensures fresh(d.desc) && d.desc.g == fetched && d.desc.uri == uri && d.desc.wellKnown == wellKnown
    ensures d.desc.requested == RequestUri(uri, wellKnown)
    ensures d.Id() == id && d.resource == ResolvedSubject(fetched, id)
    ensures d.desc.Valid() && d.desc.datasets.Some? && d in d.desc.datasets.value
    ensures modified == ResolvedModified(fetched, id) && Temporal(modified)
  {
    var lod := new Description(uri, wellKnown, fetched);
    var found := lod.Get(id);
    d := found.value;
    ghost var i := SelectIndex(Ids(DatasetSubjects(fetched)), id).value;
    assert d.resource == DatasetSubjects(fetched)[i];
    ModifiedLookup(fetched, d.resource);
    var m := d.Get("modified");
    modified := m.value;
  }

  class Publisher {
    var dataset: Dataset
    const datasetId: string
    /** The `modified` term last read: a date or a date-time. */
    var lastModified: Term
    var wasUpdated: bool
    var ipfsAddr: Option<string>
    /** Every side effect performed so far, oldest first. */
    var effects: seq<Effect>

    /** The publisher's dataset keeps its id, and the watermark is a date or a date-time. */
    ghost predicate Valid()
      reads this
    {
      dataset.Id() == datasetId && Temporal(lastModified)
    }

    function State(): Watch
      requires Valid()
      reads this
    {
      Watch(wasUpdated, Moment(lastModified))
    }

    /** Binds the publisher to `dataset`; the first publish is always due. */
    constructor (dataset: Dataset)
      requires Modified(dataset.desc.g, dataset.resource).Some?
      ensures Valid()
      ensures this.dataset == dataset && datasetId == dataset.Id()
      ensures Some(lastModified) == Modified(dataset.desc.g, dataset.resource)
      ensures wasUpdated && ipfsAddr == None && effects == []
    {
      ModifiedLookup(dataset.desc.g, dataset.resource);
      var m := dataset.Get("modified");
      this.dataset := dataset;
      datasetId := dataset.Id();
      lastModified := m.value;
      wasUpdated := true;
      ipfsAddr := None;
      effects := [];
    }

    /**
     * Re-reads the description from the same URI (giving `fetched`) and
     * compares the timestamps. The dataset is replaced before the comparison,
     * so a comparison that raises leaves the new dataset with the old watermark.
     */
    method Update(fetched: Graph) returns (outcome: UpdateOutcome)
      requires Valid()
      requires Reresolvable(fetched, datasetId)
      modifies this
      ensures Valid()
      ensures fresh(dataset.desc) && dataset.desc.g == fetched
      ensures dataset.desc.uri == old(dataset.desc.uri) && dataset.desc.wellKnown == old(dataset.desc.wellKnown)
      ensures dataset.desc.requested == RequestUri(old(dataset.desc.uri), old(dataset.desc.wellKnown))
      ensures dataset.resource == ResolvedSubject(fetched, datasetId)
      ensures dataset.desc.Valid() && dataset.desc.datasets.Some? && dataset in dataset.desc.datasets.value
      ensures var m := ResolvedModified(fetched, datasetId);
        if SameKind(old(lastModified), m) then
          outcome == Compared && lastModified == m && State() == Observe(old(State()), Moment(m))
        else
          outcome == KindMismatch && lastModified == old(lastModified) && wasUpdated == old(wasUpdated)
      ensures ipfsAddr == old(ipfsAddr) && effects == old(effects)
    {
      ghost var before := State();
      var d, modified := Reload(dataset.desc.uri, dataset.desc.wellKnown, fetched, datasetId);
      dataset := d;
      if !SameKind(modified, lastModified) {
        return KindMismatch;
      }
      if Before(Moment(lastModified), Moment(modified)) {
        wasUpdated := true;
      }
      lastModified := modified;
      outcome := Compared;
      assert dataset == d && lastModified == modified;
      assert State() == Observe(before, Moment(modified));
    }

    /** `publish(style)`: runs the snapshot pipeline when the flag is up, and always leaves it down. */
    method Publish(style: string, env: Env) returns (outcome: Outcome)
      requires Valid()
      requires wasUpdated && style == FOLDER_STYLE ==> FourDigitYear(Moment(lastModified))
      modifies this
      ensures Valid() && !wasUpdated
      ensures dataset == old(dataset) && lastModified == old(lastModified)
      ensures var r := PublishRun(old(wasUpdated), style, datasetId, Moment(lastModified), dataset.desc.g,
                                  Lookup(dataset.desc.g, dataset.resource, "dataDump"), env, old(ipfsAddr));
        outcome == r.outcome && effects == old(effects) + r.effects && ipfsAddr == r.addr
    {
      if !wasUpdated {
        return Skipped;
      }
      wasUpdated := false;
      var r: Run;
      if style == FOLDER_STYLE {
        var dumps := dataset.Get("dataDump");
        r := FolderSnapshot(datasetId, Moment(lastModified), dataset.desc.g, dumps, env, ipfsAddr);
      } else {
        r := Run(UnsupportedStyle, [], ipfsAddr);
      }
      assert r == PublishRun(true, style, datasetId, Moment(lastModified), dataset.desc.g,
                             Lookup(dataset.desc.g, dataset.resource, "dataDump"), env, ipfsAddr);
      effects := effects + r.effects;
      ipfsAddr := r.addr;
      outcome := r.outcome;
    }
  }

  // ---------------------------------------------------------------------------
  // Dates

  /** Two dates compare by year, then month, then day. */
  lemma DateComparison(a: Term, b: Term)
    requires a.Date? && b.Date?
    ensures Before(Moment(a), Moment(b)) <==>
            a.year < b.year || (a.year == b.year && (a.month < b.month || (a.month == b.month && a.day < b.day)))
  {
  }

  /** A dataset modified on a date is published under that date at `00:00:00`. */
  lemma DateFolderAtMidnight(id: string, d: Term)
    requires d.Date? && FourDigitYear(Moment(d))
    ensures FolderName(id, Moment(d))[|id| + 10..] == "_00:00:00"
  {
    var t := Moment(d);
    FormatMidnight(t);
    assert FolderName(id, t)[|id| + 10..] == Format(t)[10..];
  }


  // ---------------------------------------------------------------------------
  // A whole lifecycle

  /**
   * A dataset with one dump, published, updated with the same timestamp (no
   * change), updated with a later one (flag up) and published again: two adds
   * under two different folder names, each recording its own hash.
   */
  lemma Lifecycle(id: string, graph: Graph, dump: Term, h1: string, h2: string)
    ensures var t1 := Timestamp(2020, 1, 1, 0, 0, 0, 0);
      var t2 := Timestamp(2020, 6, 1, 0, 0, 0, 0);
      var f1 := FolderName(id, t1);
      var f2 := FolderName(id, t2);
      var run1 := PublishRun(true, FOLDER_STYLE, id, t1, graph, Single(dump),
                             Env(false, None, [AddEntry(f1, h1)]), None);
      var after1 := Observe(Watch(false, t1), t1);
      var after2 := Observe(after1, t2);
      var run2 := PublishRun(after2.dirty, FOLDER_STYLE, id, after2.watermark, graph, Single(dump),
                             Env(false, None, [AddEntry(f2, h2)]), run1.addr);
      run1.outcome == Published && run1.addr == Some(h1) &&
      !after1.dirty && after2.dirty &&
      run2.outcome == Published && run2.addr == Some(h2) &&
      run2.effects[|run2.effects| - 2] == AddToIpfs(f2) && f1 != f2
  {
    var t1 := Timestamp(2020, 1, 1, 0, 0, 0, 0);
    var t2 := Timestamp(2020, 6, 1, 0, 0, 0, 0);
    assert Before(t1, t2);
    FolderNamesDiffer(id, t1, t2);
    PublishedRun(FOLDER_STYLE, id, t2, graph, Single(dump), Env(false, None, [AddEntry(FolderName(id, t2), h2)]), Some(h1));
  }
}
