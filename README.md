# LOD datasets over IPFS — a Dafny model

This project models the two core classes behind the publisher of Linked Open
Data (LOD) snapshots on IPFS:

- In `lodataset.py`, a **VoID description** (`LODatasetDescription`) holds the
  RDF graph fetched from a URI. By default the fetch uses the well-known suffix
  `.well-known/void`. The description discovers and caches the graph's
  `void:Dataset` entities (`get_datasets`) and looks one up by id (`desc[key]`).
- Also in `lodataset.py`, a **dataset** (`LODataset`) answers attribute lookups
  (`dataset[key]`). A lookup resolves the key in the Dublin Core terms
  namespace for ten listed keys and in the VoID namespace for every other key.
  It collects the matching objects and returns `None`, the single value, or the
  list. The dataset's id is its resource with surrounding whitespace stripped.
- In `ipfs_lod.py`, the **publisher** (`IPFSLODPublisher`) watches the
  dataset's `dcterms:modified` value. That value is an `xsd:dateTime` or an
  `xsd:date`; `toPython()` turns a date into a `date`, which `strftime` prints
  at midnight.
  - `update` re-fetches the description and raises the dirty flag when the new
    timestamp is strictly newer than the stored one. It always stores the new
    timestamp. When one value is a date and the other a date-time, the
    comparison raises.
  - `publish` does nothing unless the flag is up, and always clears the flag.
    In the `"folder"` style it builds a snapshot folder: the id with `/`
    replaced by `_`, followed by the formatted timestamp. It serializes the
    description into the folder, downloads every `void:dataDump` in order, adds
    the folder to IPFS, records the hash the `add` result lists for the folder,
    and removes the folder. Downloading the target `None` (no dump declared)
    always raises.
  - Any other style raises an error.

Files:

- `wrappers.dfy` holds `Option`.
- `timestamps.dfy` holds naive date-times, their field-by-field order and the
  `%Y_%m_%d_%H:%M:%S` format together with its read-back.
- `void.dfy` holds the graph, the lookups, `strip()`, and the classes
  `Description` and `Dataset`.
- `publishing.dfy` holds three things:
  - the specification functions `Observe`, `LastHash`, `FirstFailure`,
    `PublishRun`, `ResolvedSubject` and `ResolvedModified`;
  - the methods proved against them: `SelectHash` against `LastHash`,
    `DownloadAll` against `FirstFailure`, `FolderSnapshot` against
    `PublishRun`, and `Reload` against `ResolvedSubject` and
    `ResolvedModified`;
  - the class `Publisher`, whose `Update` is proved against `Observe` and
    whose `Publish` is proved against `PublishRun`.

The outside world is handled as follows:

- Each filesystem, network or IPFS action of `publish` is appended to an
  effect log (`Effect`).
- The environment's answers are a parameter, `Env`. These answers are whether
  the folder exists, which URL download (if any) raises, and the list the IPFS
  `add` returns. A `None` target raises whatever `Env` says.
- The description's constructor takes the triples the fetched document parsed
  to. It records the URI it would request.

The model follows the code where the code goes beyond what its documentation
states:

- `dataset[key]` sends every key outside the ten Dublin Core keys to the VoID
  namespace. No key is rejected.
- `desc[key]` returns `None` both when no dataset has the id and when several
  do. It raises no ambiguity error.
- `publish` clears the flag before it checks the style and before any
  download. A publish that fails therefore still loses the flag.
- The stored timestamp is overwritten on every `update`, even by an older one
  (`WatermarkMovesBack`, `ReturnRaisesFlag`).
- A download that raises ends `publish` without removing the folder.
- An absent `dataDump` becomes the single download target `None`. The
  download of `None` raises, so such a publish stages the folder and fails
  (`MissingDumpFails`).
- `update` replaces the dataset before it compares. When the comparison raises
  (a date against a date-time, ipfs_lod.py:44), the new dataset is kept with
  the old stored value and the old flag (`Update`'s `KindMismatch` outcome).

## Model

| member | source | states |
|---|---|---|
| Void.RequestUri | lodataset.py:23-31 | a request is issued exactly when the well-known convention is on, and it is the URI followed by `.well-known/void` |
| Void.Description.constructor | lodataset.py:20-38 | keeps the URI and the flag, records the request, holds the fetched graph, and starts with no dataset cache |
| Void.DatasetSubjectsExactly | lodataset.py:57 | discovery finds a subject exactly when the graph has the triple `(subject, rdf:type, void:Dataset)` |
| Void.DatasetSubjectsDistinct | lodataset.py:57 | in a graph without repeated triples, discovery finds each subject once |
| Void.Description.GetDatasets | lodataset.py:54-61 | the first call builds one fresh dataset per `void:Dataset` triple, in graph order, each pointing back to this description; later calls return the same cached list |
| Void.MatchIndices | lodataset.py:43 | holds exactly the positions whose id equals the key, in increasing order |
| Void.SelectIndexUnique | lodataset.py:43-47 | `desc[key]` yields a position exactly when that position is the only one whose id equals the key (both directions) |
| Void.Description.Get | lodataset.py:40-47 | returns the cached dataset at the unique matching position, and `None` when there are zero or several matches; a returned dataset has that id |
| Void.Namespace | lodataset.py:82-89 | Dublin Core terms exactly for the ten listed keys, VoID for every other key |
| Void.LookupNamespace | lodataset.py:86-90 | a lookup reads the predicate namespace + key, in the namespace `Namespace` picks |
| Void.ObjectsExactly | lodataset.py:90-92 | an object is collected exactly when a triple `(resource, predicate, object)` is in the graph, and no more objects are collected than there are triples |
| Void.ObjectsDistinct | lodataset.py:90-92 | in a graph without repeated triples, each object is collected once |
| Void.Shape | lodataset.py:96-101 | `None` for no objects, the object itself for one, the whole list for two or more |
| Void.ShapeRoundTrip | lodataset.py:96-101 | the shaped result still determines the list of collected objects |
| Void.Dataset.Get | lodataset.py:77-101 | the loop over the graph returns `Lookup`: the shaped objects of `(resource, namespace + key, ?)` |
| Void.Dataset.constructor | lodataset.py:70-74 | the dataset keeps the resource and the description it was built from |
| Void.ModifiedSpec | lodataset.py:82-101 | the `modified` value is the object of the single `dcterms:modified` triple, when that object is a date or a date-time |
| Void.ModifiedLookup | lodataset.py:96-99 | when there is such a value, `dataset["modified"]` is that one object, and it is a date or a date-time |
| Void.Strip | lodataset.py:105 | the id is a contiguous part of the resource; only whitespace lies before and after it; it neither starts nor ends with whitespace |
| Void.Dataset.Id | lodataset.py:103-105 | the id is the part of the resource after its leading whitespace, with only whitespace after it, and it neither starts nor ends with whitespace: exactly `resource.strip()`; stripping it again changes nothing |
| Void.StripIdempotent | lodataset.py:104-105 | stripping an id again changes nothing |
| Void.Leading | lodataset.py:105 | counts exactly the run of leading whitespace |
| Void.Trailing | lodataset.py:105 | counts exactly the run of trailing whitespace |
| Void.Ids | lodataset.py:43 | the id of each discovered dataset, in order |
| Publishing.Publisher.constructor | ipfs_lod.py:25-29 | binds the dataset, stores its id and its current `modified` date or date-time, raises the flag, and starts with no hash and no effects |
| Publishing.Reload | ipfs_lod.py:39-42 | builds a fresh description of the same URI and flag and selects the dataset with the stored id; that dataset is the uniquely matching subject and sits in the new description's dataset cache, and its `modified` date or date-time is read |
| Publishing.Publisher.Update | ipfs_lod.py:35-49 | the dataset is always replaced by the one in the new description's cache; when the new and the stored value are of the same kind, the new state is `Observe` of the old one (the flag is raised when the new value is strictly newer and otherwise kept, the stored value is the new one); a date against a date-time ends in `KindMismatch` with the stored value and the flag unchanged; the hash and the effects are unchanged |
| Publishing.DateComparison | ipfs_lod.py:44 | two dates compare by year, then month, then day |
| Publishing.Observe | ipfs_lod.py:44-49 | the flag is up exactly when it was up or the timestamp is strictly newer than the stored one; the stored timestamp becomes the one read |
| Publishing.ObserveAllMark | ipfs_lod.py:49 | after a series of updates the stored timestamp is the last one read, whatever came before |
| Publishing.ObserveAllRaised | ipfs_lod.py:44-45 | after a series of updates the flag is up exactly when it was up at the start or one of the updates raised it |
| Publishing.AnyRaisedExists | ipfs_lod.py:44-45 | an update in the series raised the flag exactly when some update read a timestamp strictly newer than the one stored before it |
| Publishing.ObserveAllDirty | ipfs_lod.py:44-45 | after a series of updates the flag is up exactly when it was up at the start or some update read a timestamp strictly newer than the one stored before it |
| Publishing.WatermarkMovesBack | ipfs_lod.py:44-49 | an older timestamp replaces a newer stored one and leaves the flag down |
| Publishing.ReturnRaisesFlag | ipfs_lod.py:44-49 | a timestamp that goes back and then returns to the published value raises the flag again |
| Timestamps.BeforeLexicographic | ipfs_lod.py:44 | one timestamp is earlier than another exactly when its fields, from year to microsecond, come first lexicographically |
| Timestamps.BeforeStrictTotalOrder | ipfs_lod.py:44 | comparing timestamps is irreflexive, asymmetric, transitive and total |
| Timestamps.DigitsRoundTrip | ipfs_lod.py:64 | a zero-padded field reads back as its number |
| Timestamps.Format | ipfs_lod.py:64 | `%Y_%m_%d_%H:%M:%S` is 19 characters, with `_` after the year, the month and the day and `:` after the hour and the minute |
| Timestamps.FormatMidnight | ipfs_lod.py:64 | a timestamp at midnight ends in `_00:00:00` |
| Timestamps.FormatRoundTrip | ipfs_lod.py:64 | the formatted timestamp reads back as year, month, day, hour, minute and second |
| Timestamps.FormatInjective | ipfs_lod.py:64 | two timestamps format equally only when they agree down to the second |
| Timestamps.FormatCharacters | ipfs_lod.py:64 | the formatted timestamp holds only digits, `_` and `:` |
| Publishing.SlashesToUnderscores | ipfs_lod.py:63 | every `/` of the id becomes `_`, every other character is kept, and no `/` is left |
| Publishing.FolderName | ipfs_lod.py:63-64 | the folder name is 19 characters longer than the id and holds no `/` |
| Publishing.FolderNameLayout | ipfs_lod.py:63-64 | the folder name is the rewritten id followed by the timestamp, which can be read back from its end |
| Publishing.DateFolderAtMidnight | ipfs_lod.py:64 | a dataset modified on a date is published under a folder ending in `_00:00:00` |
| Publishing.FolderNamesDiffer | ipfs_lod.py:63-64 | one dataset published at two different seconds gets two different folders |
| Publishing.FolderNamesCollide | ipfs_lod.py:63 | the ids `a/b` and `a_b` share a folder name |
| Publishing.Normalise | ipfs_lod.py:73-76 | a list of dumps is downloaded as it is; everything else (`None` included) becomes a one-element list |
| Publishing.NormaliseCollected | ipfs_lod.py:73-77 | when no dump is declared the single target is `None`; otherwise each collected dump is a target once, in order |
| Publishing.DownloadTargetsOfDownloads | ipfs_lod.py:77-78 | the download loop downloads exactly the listed dumps, in order |
| Publishing.LastHash | ipfs_lod.py:82-84 | the recorded hash is the previous one or the hash of an `add` entry named after the folder |
| Publishing.LastHashNone | ipfs_lod.py:82-84 | when no `add` entry is named after the folder, the recorded hash is unchanged |
| Publishing.LastHashLast | ipfs_lod.py:82-84 | otherwise the recorded hash is the hash of the last entry named after the folder |
| Publishing.SelectHash | ipfs_lod.py:82-84 | the loop over the `add` result computes `LastHash` |
| Publishing.FirstFailure | ipfs_lod.py:77-78 | the first download target that raises (a `None` target, or the URL the environment fails), and none when no target raises |
| Publishing.DownloadAll | ipfs_lod.py:77-78 | the download loop stops at `FirstFailure`, having downloaded the targets up to and including it, or downloads every target |
| Publishing.PublishRun | ipfs_lod.py:59-90 | an unflagged publish does nothing; an unknown style fails with no effect; a publish succeeds exactly when the style is `folder` and no download target raises; otherwise the hash is unchanged |
| Publishing.MissingDumpFails | ipfs_lod.py:73-78 | a flagged `folder` publish of a dataset with no `dataDump` stages the folder, tries to download `None` and fails, leaving the hash as it was |
| Publishing.PublishedLayout | ipfs_lod.py:66-88 | in a successful publish: the folder is made unless it exists, the graph is serialized, every download comes after that and before the add, and the add and then the removal come last |
| Publishing.PublishedRun | ipfs_lod.py:63-88 | a successful publish downloads exactly the normalised dumps, in order, and records the hash of the last `add` entry for its folder |
| Publishing.FailedRun | ipfs_lod.py:66-78 | a download that raises ends the publish: its effects are the staging effects followed by the downloads of the targets up to and including it, in order; nothing was added to IPFS or removed; the hash is unchanged |
| Publishing.FailedLayout | ipfs_lod.py:66-78 | the effects of a failed publish are the staging effects followed by the downloads attempted |
| Publishing.NoDownloadsAround | ipfs_lod.py:66-88 | creating, serializing, adding and removing download nothing |
| Publishing.FolderSnapshot | ipfs_lod.py:62-88 | the `folder` branch, written step by step, computes `PublishRun` |
| Publishing.Publisher.Publish | ipfs_lod.py:52-90 | the flag is cleared; the outcome, the appended effects and the new hash are those of `PublishRun` for the old flag, the stored timestamp and the dataset's `dataDump` lookup |
| Publishing.Lifecycle | ipfs_lod.py:25-88 | publishing, an update with the same timestamp, an update with a later one and a second publish give two adds under two different folders, each recording its own hash |

## Left out

- Network access and Turtle parsing (`requests.get`, `Graph.parse`, the
  temporary `void.ttl`, lodataset.py:31-36) are left out. The constructor
  receives the parsed triples and records the URI it would request.
- The `well_known=False` branch (lodataset.py:38) is left out. It calls
  `get(uri)` on the fresh, empty `rdf.Graph()`, which has no such method. So
  the code never fills the graph there and raises `AttributeError`. In the
  model, a description built with `wellKnown == false` still holds the given
  triples. That is an abstraction the code does not provide.
- The RDF graph is a list of triples in iteration order. Blank nodes, language
  tags and datatypes other than `xsd:dateTime` and `xsd:date` are not
  distinguished. `toPython()` is `Moment` of a `DateTime` or `Date` term.
- Void.Description.constructor: requires the triples to be distinct, because an
  rdflib graph is a set of triples. `Reresolvable` requires the same of a
  re-fetched graph.
- Serialization (`Graph.serialize`), `wget.download`, `os.mkdir`, the
  IPFS `add` and `shutil.rmtree` are recorded as effects only. Their results
  come from `Env`, not from a filesystem.
- `os.chdir`, `print` and `logging` have no effect the model keeps.
- The IPFS client connection (`ipfsapi.connect`) is left out, as are its host
  and port parameters.
- Exceptions raised by the environment are reduced to one case: a download
  that raises. `Env` names the URL download that raises; a `None` target
  always raises. An `add` or a `rmtree` that raises is not modelled, and
  neither is a folder left in place by a failed download.
- The `"ipfsld"` style and any other style end in the outcome
  `UnsupportedStyle`. The `ValueError` is not modelled as an exception.
- Publishing.Publisher.constructor: requires the dataset to have exactly one
  `modified` value, a date or a date-time. With no value or several, the code
  raises at `toPython()` (ipfs_lod.py:33). The code also accepts other
  date-like literals, such as an `xsd:time`, whose `toPython()` value has
  `strftime` and compares with `>`. The model excludes those.
- Publishing.Publisher.Update: requires that the re-fetched graph still holds
  the dataset id exactly once, with one `modified` date or date-time. The code
  raises when `lod[id]` is `None` (ipfs_lod.py:42), and at `toPython()` for
  no value or several. Other date-like literals, such as `xsd:time`, are
  accepted by the code and excluded here. The `TypeError` of comparing a date with a date-time
  (ipfs_lod.py:44) is the `KindMismatch` outcome, not an exception.
- Publishing.Publisher.Publish: requires, for a flagged `folder` publish, a
  timestamp with a four-digit year. `%Y` for earlier years depends on the
  platform.
- Timestamps: time zones are left out, and so are month lengths (day 31 of
  every month is accepted). A date is its midnight, as `strftime` prints it.
- uk-gazetteer2ipfs.py, the driver loop that calls `update` and `publish`
  repeatedly, is not part of this model.
  `ObserveAllMark`/`ObserveAllDirty` and `Lifecycle` cover sequences of calls.
