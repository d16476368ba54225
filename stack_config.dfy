/**
  The stack configuration: one `RepoConfig` record per repository name, each with an indexing
  status, bookkeeping counts and the dict form the configuration file stores.
 */
module StackConfig {
  import opened Base
  import opened PyDict

  // ---------------------------------------------------------------- IndexingStatus

  datatype IndexingStatus = NotIndexed | Indexing | Indexed | Error | Stale

  /** The members of the enumeration, in declaration order (the order `for status in IndexingStatus` visits). */
  const AllStatuses: seq<IndexingStatus> := [NotIndexed, Indexing, Indexed, Error, Stale]

  /** `status.value`. */
  function StatusValue(s: IndexingStatus): (v: string)
    ensures v != ""
  {
    match s
    case NotIndexed => "not_indexed"
    case Indexing => "indexing"
    case Indexed => "indexed"
    case Error => "error"
    case Stale => "stale"
  }

  /** `IndexingStatus(v)`: the member with that value, or the `ValueError` the enumeration raises. */
  function StatusFromValue(v: string): (r: Result<IndexingStatus>)
    ensures r.Success? ==> StatusValue(r.value) == v
    ensures r.Failure? ==> forall s :: StatusValue(s) != v
  {
    if v == "not_indexed" then Success(NotIndexed)
    else if v == "indexing" then Success(Indexing)
    else if v == "indexed" then Success(Indexed)
    else if v == "error" then Success(Error)
    else if v == "stale" then Success(Stale)
    else
      assert forall s :: StatusValue(s) != v;
      Failure("ValueError: '" + v + "' is not a valid IndexingStatus")
  }

  /** Every member is listed exactly once in `AllStatuses`. */
  lemma AllStatusesComplete(s: IndexingStatus)
    ensures s in AllStatuses
    ensures forall i, j | 0 <= i < j < |AllStatuses| :: AllStatuses[i] != AllStatuses[j]
  {
  }

  // ---------------------------------------------------------------- RepoConfig

  datatype RepoConfig = RepoConfig(
    name: string,
    path: string,
    status: IndexingStatus,
    lastIndexed: Option<string>,
    lastCommit: Option<string>,
    filesIndexed: int,
    chunksIndexed: int,
    errorMessage: Option<string>,
    autoReindex: bool)

  /** `RepoConfig(name=name, path=path, auto_reindex=auto_reindex)`: every other field takes its default. */
  function NewRepoConfig(name: string, path: string, autoReindex: bool): (r: RepoConfig)
    ensures r.name == name && r.path == path && r.autoReindex == autoReindex
    ensures r.status == NotIndexed
    ensures r.lastIndexed.None? && r.lastCommit.None? && r.errorMessage.None?
    ensures r.filesIndexed == 0 && r.chunksIndexed == 0
  {
    RepoConfig(name, path, NotIndexed, None, None, 0, 0, None, autoReindex)
  }

  /** A JSON value as `json.dump` writes it for the fields of a `RepoConfig`. */
  datatype Json = JStr(s: string) | JInt(i: int) | JBool(b: bool) | JNull

  function OptionToJson(o: Option<string>): Json {
    if o.Some? then JStr(o.value) else JNull
  }

  /** The nine keys `to_dict` writes. */
  const RepoConfigKeys: set<string> :=
    {"name", "path", "status", "last_indexed", "last_commit", "files_indexed",
     "chunks_indexed", "error_message", "auto_reindex"}

  /** `RepoConfig.to_dict`: status as its string value, absent optionals as `null`. */
  function ToDict(r: RepoConfig): (d: map<string, Json>)
    ensures d.Keys == RepoConfigKeys
    ensures d["status"] == JStr(StatusValue(r.status))
    ensures d["last_commit"].JNull? <==> r.lastCommit.None?
  {
    map[
      "name" := JStr(r.name),
      "path" := JStr(r.path),
      "status" := JStr(StatusValue(r.status)),
      "last_indexed" := OptionToJson(r.lastIndexed),
      "last_commit" := OptionToJson(r.lastCommit),
      "files_indexed" := JInt(r.filesIndexed),
      "chunks_indexed" := JInt(r.chunksIndexed),
      "error_message" := OptionToJson(r.errorMessage),
      "auto_reindex" := JBool(r.autoReindex)]
  }

  /**
    `data[key]` for a required string field: a missing key raises `KeyError`. A value of another
    JSON type cannot be held by the typed record, so it is a failure here.
   */
  function RequiredString(d: map<string, Json>, key: string): (r: Result<string>)
    ensures r.Success? <==> key in d && d[key].JStr?
    ensures r.Success? ==> d[key] == JStr(r.value)
  {
    if key !in d then Failure("KeyError: '" + key + "'")
    else if d[key].JStr? then Success(d[key].s)
    else Failure("'" + key + "' does not hold a string")
  }

  /** `data.get(key)` for an optional string field: missing and `null` both give `None`. */
  function OptionalString(d: map<string, Json>, key: string): (r: Result<Option<string>>)
    ensures key !in d ==> r == Success(None)
    ensures key in d && d[key].JNull? ==> r == Success(None)
    ensures key in d && d[key].JStr? ==> r == Success(Some(d[key].s))
  {
    if key !in d || d[key].JNull? then Success(None)
    else if d[key].JStr? then Success(Some(d[key].s))
    else Failure("'" + key + "' does not hold a string")
  }

  /** `data.get(key, default)` for an integer field. */
  function IntOr(d: map<string, Json>, key: string, default: int): (r: Result<int>)
    ensures key !in d ==> r == Success(default)
    ensures key in d && d[key].JInt? ==> r == Success(d[key].i)
  {
    if key !in d then Success(default)
    else if d[key].JInt? then Success(d[key].i)
    else Failure("'" + key + "' does not hold an integer")
  }

  /** `data.get(key, default)` for a boolean field. */
  function BoolOr(d: map<string, Json>, key: string, default: bool): (r: Result<bool>)
    ensures key !in d ==> r == Success(default)
    ensures key in d && d[key].JBool? ==> r == Success(d[key].b)
  {
    if key !in d then Success(default)
    else if d[key].JBool? then Success(d[key].b)
    else Failure("'" + key + "' does not hold a boolean")
  }

  /** `data.get("status", "not_indexed")` passed to `IndexingStatus(...)`. */
  function StatusField(d: map<string, Json>): (r: Result<IndexingStatus>)
    ensures "status" !in d ==> r == Success(NotIndexed)
    ensures "status" in d && !d["status"].JStr? ==> r.Failure?
    ensures "status" in d && d["status"].JStr? ==> r == StatusFromValue(d["status"].s)
  {
    if "status" !in d then Success(NotIndexed)
    else if d["status"].JStr? then StatusFromValue(d["status"].s)
    else Failure("ValueError: status is not a valid IndexingStatus")
  }

  /** `RepoConfig.from_dict`: `name` and `path` are required, every other key has a default. */
  function FromDict(d: map<string, Json>): (r: Result<RepoConfig>)
    ensures "name" !in d || "path" !in d ==> r.Failure?
    ensures r.Success? ==> JStr(r.value.name) == d["name"] && JStr(r.value.path) == d["path"]
    ensures r.Success? && "status" !in d ==> r.value.status == NotIndexed
    ensures r.Success? && "files_indexed" !in d ==> r.value.filesIndexed == 0
    ensures r.Success? && "auto_reindex" !in d ==> r.value.autoReindex
  {
    var name := RequiredString(d, "name");
    var path := RequiredString(d, "path");
    var status := StatusField(d);
    var lastIndexed := OptionalString(d, "last_indexed");
    var lastCommit := OptionalString(d, "last_commit");
    var files := IntOr(d, "files_indexed", 0);
    var chunks := IntOr(d, "chunks_indexed", 0);
    var err := OptionalString(d, "error_message");
    var auto := BoolOr(d, "auto_reindex", true);
    if name.Failure? then Failure(name.error)
    else if path.Failure? then Failure(path.error)
    else if status.Failure? then Failure(status.error)
    else if lastIndexed.Failure? then Failure(lastIndexed.error)
    else if lastCommit.Failure? then Failure(lastCommit.error)
    else if files.Failure? then Failure(files.error)
    else if chunks.Failure? then Failure(chunks.error)
    else if err.Failure? then Failure(err.error)
    else if auto.Failure? then Failure(auto.error)
    else Success(RepoConfig(name.value, path.value, status.value, lastIndexed.value, lastCommit.value,
                            files.value, chunks.value, err.value, auto.value))
  }

  /** Reading back what `to_dict` wrote gives the same record. */
  lemma FromDictToDict(r: RepoConfig)
    ensures FromDict(ToDict(r)) == Success(r)
  {
    var d := ToDict(r);
    StatusValueRoundTrip(r.status);
    assert StatusField(d) == Success(r.status);
  }

  /** The string value of a status names it again. */
  lemma StatusValueRoundTrip(s: IndexingStatus)
    ensures StatusFromValue(StatusValue(s)) == Success(s)
  {
  }

  /** A dict holding only `name` and `path` reads as a fresh record. */
  lemma FromMinimalDict(name: string, path: string)
    ensures FromDict(map["name" := JStr(name), "path" := JStr(path)]) == Success(NewRepoConfig(name, path, true))
  {
  }

  // ---------------------------------------------------------------- status updates

  /**
    The record after `update_repo_status(name, status, ...)`: the status is always set, the
    `last_indexed` timestamp becomes `now` only for `INDEXED`, and an argument left `None` keeps its field.
   */
  function WithStatus(r: RepoConfig, status: IndexingStatus, lastCommit: Option<string>,
                      filesIndexed: Option<int>, chunksIndexed: Option<int>,
                      errorMessage: Option<string>, now: string): (u: RepoConfig)
    ensures u.name == r.name && u.path == r.path && u.autoReindex == r.autoReindex
    ensures u.status == status
    ensures u.lastIndexed == (if status == Indexed then Some(now) else r.lastIndexed)
    ensures u.lastCommit == (if lastCommit.Some? then lastCommit else r.lastCommit)
    ensures u.filesIndexed == (if filesIndexed.Some? then filesIndexed.value else r.filesIndexed)
    ensures u.chunksIndexed == (if chunksIndexed.Some? then chunksIndexed.value else r.chunksIndexed)
    ensures u.errorMessage == (if errorMessage.Some? then errorMessage else r.errorMessage)
  {
    var r1 := r.(status := status);
    var r2 := if status == Indexed then r1.(lastIndexed := Some(now)) else r1;
    var r3 := if lastCommit.Some? then r2.(lastCommit := lastCommit) else r2;
    var r4 := if filesIndexed.Some? then r3.(filesIndexed := filesIndexed.value) else r3;
    var r5 := if chunksIndexed.Some? then r4.(chunksIndexed := chunksIndexed.value) else r4;
    if errorMessage.Some? then r5.(errorMessage := errorMessage) else r5
  }

  /** Setting a status with all optional arguments `None` only touches the status (and the timestamp for `INDEXED`). */
  lemma WithStatusOnly(r: RepoConfig, status: IndexingStatus, now: string)
    requires status != Indexed
    ensures WithStatus(r, status, None, None, None, None, now) == r.(status := status)
  {
  }

  /** The `needs_reindex` decision on a record that may be absent. */
  function NeedsReindexDecision(repo: Option<RepoConfig>, currentCommit: string): (b: bool)
  {
    if repo.None? then true
    else if repo.value.status == NotIndexed then true
    else if repo.value.status == Stale || repo.value.status == Error then true
    else if Truthy(repo.value.lastCommit) && repo.value.lastCommit.value != currentCommit then true
    else false
  }

  /** `needs_reindex` holds exactly when the repository is absent, unindexed, stale, failed, or its recorded commit moved. */
  lemma NeedsReindexIff(repo: Option<RepoConfig>, currentCommit: string)
    ensures NeedsReindexDecision(repo, currentCommit) <==>
      repo.None?
      || repo.value.status in {NotIndexed, Stale, Error}
      || (repo.value.lastCommit.Some? && repo.value.lastCommit.value != "" && repo.value.lastCommit.value != currentCommit)
  {
  }

  /** A repository indexed at the current commit, or never given a commit, does not need reindexing. */
  lemma IndexedAtCommitIsCurrent(r: RepoConfig, commit: string)
    requires r.status == Indexed || r.status == Indexing
    requires r.lastCommit.None? || r.lastCommit == Some(commit)
    ensures !NeedsReindexDecision(Some(r), commit)
  {
  }

  // ---------------------------------------------------------------- aggregation helpers

  /** `[r for r in rs if r.status == s]`. */
  function WithStatusIn(rs: seq<RepoConfig>, s: IndexingStatus): (out: seq<RepoConfig>)
    ensures |out| <= |rs|
    ensures forall r | r in out :: r in rs && r.status == s
    ensures forall r | r in rs && r.status == s :: r in out
  {
    if |rs| == 0 then []
    else
      var rest := WithStatusIn(rs[1..], s);
      assert forall r | r in rs[1..] :: r in rs;
      assert forall r | r in rs :: r == rs[0] || r in rs[1..];
      if rs[0].status == s then [rs[0]] + rest else rest
  }

  /** `sum(1 for r in rs if r.status == s)`. */
  function CountStatus(rs: seq<RepoConfig>, s: IndexingStatus): (n: nat)
    ensures n == |WithStatusIn(rs, s)|
  {
    if |rs| == 0 then 0
    else (if rs[0].status == s then 1 else 0) + CountStatus(rs[1..], s)
  }

  function SumFiles(rs: seq<RepoConfig>): int {
    if |rs| == 0 then 0 else rs[0].filesIndexed + SumFiles(rs[1..])
  }

  function SumChunks(rs: seq<RepoConfig>): int {
    if |rs| == 0 then 0 else rs[0].chunksIndexed + SumChunks(rs[1..])
  }

  /** The per-status counts over a list of statuses. */
  function CountsFor(rs: seq<RepoConfig>, statuses: seq<IndexingStatus>): (counts: seq<(string, nat)>)
    ensures |counts| == |statuses|
    ensures forall i | 0 <= i < |statuses| :: counts[i] == (StatusValue(statuses[i]), CountStatus(rs, statuses[i]))
  {
    if |statuses| == 0 then []
    else [(StatusValue(statuses[0]), CountStatus(rs, statuses[0]))] + CountsFor(rs, statuses[1..])
  }

  function SumCounts(counts: seq<(string, nat)>): nat {
    if |counts| == 0 then 0 else counts[0].1 + SumCounts(counts[1..])
  }

  /** How many times `s` occurs in `statuses`. */
  function Occurrences(statuses: seq<IndexingStatus>, s: IndexingStatus): nat {
    if |statuses| == 0 then 0 else (if statuses[0] == s then 1 else 0) + Occurrences(statuses[1..], s)
  }

  lemma {:induction false} CountsNone(rs: seq<RepoConfig>, statuses: seq<IndexingStatus>)
    requires |rs| == 0
    ensures SumCounts(CountsFor(rs, statuses)) == 0
  {
    if |statuses| > 0 {
      CountsNone(rs, statuses[1..]);
    }
  }

  /** Dropping the first record lowers the summed counts by the number of times its status is listed. */
  lemma {:induction false} CountsStep(rs: seq<RepoConfig>, statuses: seq<IndexingStatus>)
    requires |rs| > 0
    ensures SumCounts(CountsFor(rs, statuses)) == SumCounts(CountsFor(rs[1..], statuses)) + Occurrences(statuses, rs[0].status)
  {
    if |statuses| > 0 {
      CountsStep(rs, statuses[1..]);
    }
  }

  lemma AllStatusesOnce(s: IndexingStatus)
    ensures Occurrences(AllStatuses, s) == 1
  {
    assert AllStatuses[1..][1..][1..][1..][1..] == [];
  }

  /** Every record has exactly one status, so the five per-status counts add up to the number of records. */
  lemma {:induction false} CountsSumToTotal(rs: seq<RepoConfig>)
    ensures SumCounts(CountsFor(rs, AllStatuses)) == |rs|
  {
    if |rs| > 0 {
      CountsSumToTotal(rs[1..]);
      CountsStep(rs, AllStatuses);
      AllStatusesOnce(rs[0].status);
    } else {
      CountsNone(rs, AllStatuses);
    }
  }

  /** The dict `get_stats` returns. */
  datatype StackStats = StackStats(totalRepos: nat, byStatus: seq<(string, nat)>, totalFilesIndexed: int, totalChunksIndexed: int)

  // ---------------------------------------------------------------- StackConfig

  class StackConfig {
    /** `self.repos`, in insertion order. */
    var repos: Dict<string, RepoConfig>

    /** The dict is well formed and every record is stored under its own name. */
    ghost predicate Valid()
      reads this
    {
      repos.Valid() && forall n | n in repos.entries :: repos.entries[n].name == n
    }

    /** A configuration with no file to load starts empty. */
    constructor ()
      ensures Valid() && repos == EmptyDict()
    {
      repos := EmptyDict();
    }

    /** `add_repo`: stores a fresh record under `name`, replacing any earlier one in place. */
    method AddRepo(name: string, path: string, autoReindex: bool) returns (repo: RepoConfig)
      requires Valid()
      modifies this
      ensures Valid()
      ensures repo == NewRepoConfig(name, path, autoReindex)
      ensures repos == old(repos).Put(name, repo)
    {
      repo := NewRepoConfig(name, path, autoReindex);
      repos := repos.Put(name, repo);
    }

    /** `remove_repo`: true iff the name was present; only that entry goes. */
    method RemoveRepo(name: string) returns (removed: bool)
      requires Valid()
      modifies this
      ensures Valid()
      ensures removed <==> name in old(repos.entries)
      ensures repos == old(repos).Remove(name)
    {
      if name in repos.entries {
        repos := repos.Remove(name);
        removed := true;
      } else {
        removed := false;
      }
    }

    /** `update_repo_status`: a no-op for an unknown name, otherwise the record becomes `WithStatus(...)`. */
    method UpdateRepoStatus(name: string, status: IndexingStatus, lastCommit: Option<string>,
                            filesIndexed: Option<int>, chunksIndexed: Option<int>,
                            errorMessage: Option<string>, now: string)
      requires Valid()
      modifies this
      ensures Valid()
      ensures name !in old(repos.entries) ==> repos == old(repos)
      ensures name in old(repos.entries) ==>
        repos == old(repos).Put(name, WithStatus(old(repos.entries[name]), status, lastCommit,
                                                 filesIndexed, chunksIndexed, errorMessage, now))
    {
      if name !in repos.entries {
        return;
      }
      var repo := repos.entries[name];
      repos := repos.Put(name, WithStatus(repo, status, lastCommit, filesIndexed, chunksIndexed, errorMessage, now));
    }

    /** `get_repo`. */
    function GetRepo(name: string): (r: Option<RepoConfig>)
      requires Valid()
      reads this
      ensures r.Some? <==> name in repos.entries
      ensures r.Some? ==> r.value == repos.entries[name] && r.value.name == name
    {
      repos.Get(name)
    }

    /** `list_repos(status_filter)`: the records in insertion order, only those with the given status when one is given. */
    function ListRepos(statusFilter: Option<IndexingStatus>): (rs: seq<RepoConfig>)
      requires Valid()
      reads this
      ensures statusFilter.None? ==> rs == repos.Values()
      ensures statusFilter.Some? ==>
        forall r :: r in rs <==> r in repos.Values() && r.status == statusFilter.value
    {
      if statusFilter.Some? then WithStatusIn(repos.Values(), statusFilter.value) else repos.Values()
    }

    /** `needs_reindex`. */
    function NeedsReindex(name: string, currentCommit: string): (b: bool)
      requires Valid()
      reads this
      ensures name !in repos.entries ==> b
      ensures b == NeedsReindexDecision(GetRepo(name), currentCommit)
    {
      NeedsReindexDecision(GetRepo(name), currentCommit)
    }

    /** `mark_stale`: sets `STALE` on an existing record and changes nothing else. */
    method MarkStale(name: string)
      requires Valid()
      modifies this
      ensures Valid()
      ensures name !in old(repos.entries) ==> repos == old(repos)
      ensures name in old(repos.entries) ==>
        repos == old(repos).Put(name, old(repos.entries[name]).(status := Stale))
    {
      if name in repos.entries {
        repos := repos.Put(name, repos.entries[name].(status := Stale));
      }
    }

    /** `get_stats`: one count per status, totals summed over every record. */
    function GetStats(): (s: StackStats)
      requires Valid()
      reads this
      ensures s.totalRepos == |repos.keys|
      ensures |s.byStatus| == |AllStatuses|
      ensures forall i | 0 <= i < |AllStatuses| ::
        s.byStatus[i] == (StatusValue(AllStatuses[i]), CountStatus(repos.Values(), AllStatuses[i]))
      ensures SumCounts(s.byStatus) == s.totalRepos
      ensures s.totalFilesIndexed == SumFiles(repos.Values()) && s.totalChunksIndexed == SumChunks(repos.Values())
    {
      var values := repos.Values();
      CountsSumToTotal(values);
      StackStats(|repos.keys|, CountsFor(values, AllStatuses), SumFiles(values), SumChunks(values))
    }
  }

  /** Adding a repository and then checking it: a fresh record always needs indexing. */
  lemma FreshRecordNeedsReindex(name: string, path: string, auto: bool, commit: string)
    ensures NeedsReindexDecision(Some(NewRepoConfig(name, path, auto)), commit)
  {
  }

  /** After `mark_stale` a present repository needs reindexing whatever the commit. */
  lemma StaleNeedsReindex(r: RepoConfig, commit: string)
    ensures NeedsReindexDecision(Some(r.(status := Stale)), commit)
  {
  }
}
