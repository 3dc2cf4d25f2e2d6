/**
 * The unified images service: the local images `crictl` lists, the tagged
 * images of a Harbor registry walked with the 100-per-page fetcher, and
 * one error entry for each part that failed, in a single answer; and the
 * section-wise merge of its configuration file over the defaults.
 */
module UnifiedImages {
  import opened Wrappers
  import opened Json
  import opened Text
  import opened Registry
  import UrlEncoding
  import CrictlImages
  import IgnoreList
  import HarborApi
  import HarborImageApi

  // ----- configuration -----

  /** One configuration section: a JSON object. */
  type Section = map<string, Json>

  /** The whole configuration: section name to section. */
  type Settings = map<string, Section>

  /** The sections a configuration file may update, in the order they are merged. */
  const SectionNames: seq<string> := ["crictl_config", "harbor_config", "app_config"]

  /** The built-in configuration. */
  const DefaultSettings: Settings := map[
    "crictl_config" := map["ignore_file_path" := JString("images_to_ignore.txt")],
    "harbor_config" := map[
      "url" := JString(""),
      "user" := JString(""),
      "password" := JString(""),
      "project_name" := JString(""),
      "page_size" := JInt(100),
      "verify_ssl" := JBool(true)],
    "app_config" := map[
      "host" := JString("0.0.0.0"),
      "port" := JInt(5000),
      "debug" := JBool(false),
      "jsonify_prettyprint_regular" := JBool(true),
      "log_file" := JString("image_api.log"),
      "log_max_bytes" := JInt(10485760),
      "log_backup_count" := JInt(3),
      "log_level_app" := JString("WARNING"),
      "log_level_file_handler" := JString("WARNING")]]

  /**
   * `section.update(v)`: an object's keys override the section's and add
   * to it; an empty list or an empty string is an empty sequence of pairs
   * and changes nothing; any other value raises.
   */
  function UpdateSection(section: Section, v: Json): Option<Section>
  {
    match v
    case JObject(members) => Some(section + members)
    case JArray(items) => if items == [] then Some(section) else None
    case JString(s) => if s == [] then Some(section) else None
    case _ => None
  }

  /**
   * One section of the merge: a section the file does not name is left
   * alone; otherwise the configuration's section (a `KeyError` when the
   * defaults lack it) is updated with the file's value. `None` when the
   * step raised.
   */
  function MergeSection(config: Settings, file: map<string, Json>, name: string): Option<Settings>
  {
    if name !in file then Some(config)
    else if name !in config then None
    else match UpdateSection(config[name], file[name])
         case None => None
         case Some(section) => Some(config[name := section])
  }

  /** Merging the sections `names` in order; an exception keeps what was merged before it. */
  function MergeSections(names: seq<string>, config: Settings, file: map<string, Json>): (out: Settings)
    ensures out.Keys == config.Keys
    ensures forall t :: t in config ==> config[t].Keys <= out[t].Keys
  {
    if names == [] then config
    else match MergeSection(config, file, names[0])
         case None => config
         case Some(next) => MergeSections(names[1..], next, file)
  }

  /**
   * The configuration `load_config` returns. A file that cannot be read
   * or decoded gives the defaults. A file whose top level is not an object
   * also gives them: a list or a string is searched (an element equal to,
   * or a substring equal to, a section name makes the subscript raise),
   * and any other value makes `in` raise, before anything is updated.
   */
  function LoadedConfig(defaults: Settings, file: ConfigFile): Settings
  {
    match file
    case Unavailable => defaults
    case Decoded(content) =>
      if content.JObject? then MergeSections(SectionNames, defaults, content.members) else defaults
  }

  /** `load_config`: copy the defaults, then merge each known section the file holds. */
  method LoadConfig(defaults: Settings, file: ConfigFile) returns (config: Settings)
    ensures config == LoadedConfig(defaults, file)
  {
    config := defaults;
    if file.Unavailable? || !file.content.JObject? {
      return;
    }
    var fileConfig := file.content.members;
    for k := 0 to |SectionNames|
      invariant MergeSections(SectionNames[k..], config, fileConfig) == LoadedConfig(defaults, file)
    {
      var name := SectionNames[k];
      assert SectionNames[k..][1..] == SectionNames[k + 1..];
      if name in fileConfig {
        if name !in config {
          return;
        }
        var updated := UpdateSection(config[name], fileConfig[name]);
        if updated.None? {
          return;
        }
        config := config[name := updated.value];
      }
    }
  }

  /** No two positions of `names` hold the same section. */
  predicate Distinct(names: seq<string>)
  {
    forall i, j :: 0 <= i < j < |names| ==> names[i] != names[j]
  }

  /** The merge leaves every section it is not asked about as it was. */
  lemma {:induction false} MergeSectionsFrame(names: seq<string>, config: Settings, file: map<string, Json>)
    ensures var out := MergeSections(names, config, file);
            forall t :: t in config && t !in names ==> out[t] == config[t]
  {
    if names != [] {
      match MergeSection(config, file, names[0]) {
        case None =>
        case Some(next) =>
          MergeSectionsFrame(names[1..], next, file);
      }
    }
  }

  /**
   * When every merged section exists and the file gives each of them as
   * an object, every section the file names becomes the default section
   * with the file's keys written over it, and every other section keeps
   * its defaults.
   */
  lemma {:induction false} MergeSectionsOverride(names: seq<string>, config: Settings, file: map<string, Json>)
    requires Distinct(names)
    requires forall n :: n in names ==> n in config && (n in file ==> file[n].JObject?)
    ensures var out := MergeSections(names, config, file);
            forall t :: t in config ==>
              out[t] == if t in names && t in file then config[t] + file[t].members else config[t]
  {
    if names != [] {
      var n := names[0];
      var next := MergeSection(config, file, n).value;
      assert forall j :: 0 <= j < |names[1..]| ==> names[1..][j] == names[j + 1];
      assert n !in names[1..];
      MergeSectionsOverride(names[1..], next, file);
    }
  }

  /** `load_config` with a file whose known sections are objects: file keys override, the rest stay. */
  lemma FileSectionsOverride(defaults: Settings, m: map<string, Json>)
    requires forall n :: n in SectionNames ==> n in defaults && (n in m ==> m[n].JObject?)
    ensures var out := LoadedConfig(defaults, Decoded(JObject(m)));
            && out.Keys == defaults.Keys
            && forall t :: t in defaults ==>
                 out[t] == if t in SectionNames && t in m then defaults[t] + m[t].members else defaults[t]
  {
    MergeSectionsOverride(SectionNames, defaults, m);
  }

  /**
   * Once a section's update raises, that section and every later one
   * keep the values they had.
   */
  lemma {:induction false} MergeSectionsStop(names: seq<string>, config: Settings, file: map<string, Json>, i: nat)
    requires Distinct(names) && i < |names|
    requires names[i] in file && names[i] in config && UpdateSection(config[names[i]], file[names[i]]).None?
    ensures var out := MergeSections(names, config, file);
            forall j :: i <= j < |names| && names[j] in config ==> out[names[j]] == config[names[j]]
  {
    if i > 0 {
      match MergeSection(config, file, names[0]) {
        case None =>
        case Some(next) =>
          assert forall j :: 0 <= j < |names[1..]| ==> names[1..][j] == names[j + 1];
          assert names[1..][i - 1] == names[i];
          MergeSectionsStop(names[1..], next, file, i - 1);
          forall j | i <= j < |names| && names[j] in config
            ensures MergeSections(names, config, file)[names[j]] == config[names[j]]
          {
            assert names[1..][j - 1] == names[j];
          }
      }
    }
  }

  /** A file section that cannot be merged stops the merge: it and the later sections keep their defaults. */
  lemma BadSectionStopsMerge(defaults: Settings, m: map<string, Json>, i: nat)
    requires i < |SectionNames|
    requires SectionNames[i] in m && SectionNames[i] in defaults
    requires UpdateSection(defaults[SectionNames[i]], m[SectionNames[i]]).None?
    ensures var out := LoadedConfig(defaults, Decoded(JObject(m)));
            forall j :: i <= j < |SectionNames| && SectionNames[j] in defaults ==>
              out[SectionNames[j]] == defaults[SectionNames[j]]
  {
    MergeSectionsStop(SectionNames, defaults, m, i);
  }

  /** Two files that agree on the merged sections give the same configuration, whatever else they hold. */
  lemma {:induction false} MergeSectionsIgnoresOtherKeys(names: seq<string>, config: Settings,
                                                         m1: map<string, Json>, m2: map<string, Json>)
    requires forall n :: n in names ==> (n in m1 <==> n in m2) && (n in m1 ==> m1[n] == m2[n])
    ensures MergeSections(names, config, m1) == MergeSections(names, config, m2)
  {
    if names != [] {
      assert names[0] in names;
      match MergeSection(config, m1, names[0]) {
        case None =>
        case Some(next) =>
          MergeSectionsIgnoresOtherKeys(names[1..], next, m1, m2);
      }
    }
  }

  /** Top-level keys of the file other than the three sections are ignored. */
  lemma UnknownSectionsIgnored(defaults: Settings, m1: map<string, Json>, m2: map<string, Json>)
    requires forall n :: n in SectionNames ==> (n in m1 <==> n in m2) && (n in m1 ==> m1[n] == m2[n])
    ensures LoadedConfig(defaults, Decoded(JObject(m1))) == LoadedConfig(defaults, Decoded(JObject(m2)))
  {
    MergeSectionsIgnoresOtherKeys(SectionNames, defaults, m1, m2);
  }

  /**
   * Whatever the file holds, the configuration loaded over the built-in
   * defaults has every setting the request handler looks up.
   */
  lemma DefaultsKeepEverySetting(file: ConfigFile)
    ensures var out := LoadedConfig(DefaultSettings, file);
            && "crictl_config" in out && "ignore_file_path" in out["crictl_config"]
            && "harbor_config" in out
            && {"url", "user", "password", "verify_ssl"} <= out["harbor_config"].Keys
  {
  }

  // ----- the answer -----

  /**
   * How `sudo crictl images` went: it could not be started or did not
   * finish within 30 seconds, or it exited with a code and raw output.
   */
  datatype CrictlRun = NotRun | Exited(code: int, stdout: seq<UrlEncoding.Byte>, stderr: seq<UrlEncoding.Byte>)

  /** The exceptions the handler catches, by kind (their message text is not modelled). */
  datatype Raised =
    | CouldNotRun              // starting the process failed, or it timed out
    | NotUtf8                  // the output is not valid UTF-8
    | ArgumentCount            // the one-parameter parser called with two arguments
    | NoSuchSetting(key: string)
    | UrlNotText               // `rstrip` on a `url` setting that is not a string
    | Traversal(failure: Failure)

  /** An error entry's text: a fixed message, or the `str()` of an exception. */
  datatype ErrorText = Message(text: string) | Exception(raised: Raised)

  datatype ErrorEntry = ErrorEntry(source: string, error: ErrorText)

  /**
   * One Harbor image. Names are `None` (JSON null) where the registry
   * gave null; digest and size are whatever JSON the artifact holds.
   */
  datatype UnifiedRecord = UnifiedRecord(repository: Option<string>, tag: Option<string>, digest: Json, size: Json,
                                         project: Option<string>)

  /** The three lists of the answer. */
  datatype AllImages = AllImages(containerdImages: seq<CrictlImages.ImageRow>, harborImages: seq<UnifiedRecord>,
                                 errors: seq<ErrorEntry>)

  /** The answer, or the server error an uncaught `KeyError` on a setting gives. */
  datatype Reply = Answered(result: AllImages) | Crashed(missingKey: string)

  const ContainerdSource := "containerd"
  const HarborSource := "harbor"
  const CrictlFailedPrefix := "Failed to execute crictl command: "
  const Incomplete := "Harbor configuration incomplete"

  /** What a section of the handler contributes: its images, and its error entry if it failed. */
  datatype ContainerdPart = ContainerdPart(images: seq<CrictlImages.ImageRow>, error: Option<ErrorEntry>)

  function ContainerdFailure(raised: Raised): ContainerdPart
  {
    ContainerdPart([], Some(ErrorEntry(ContainerdSource, Exception(raised))))
  }

  /** `settings['crictl_config']['ignore_file_path']` can be looked up. */
  predicate IgnorePathSet(settings: Settings)
  {
    "crictl_config" in settings && "ignore_file_path" in settings["crictl_config"]
  }

  /** The run succeeded and the handler gets as far as parsing its output. */
  predicate Parsable(settings: Settings, run: CrictlRun)
  {
    run.Exited? && run.code == 0 && UrlEncoding.DecodeUtf8(run.stdout).Some? && IgnorePathSet(settings)
  }

  /**
   * The containerd block with the parser called as intended: a clean
   * exit gives the parsed output filtered by the ignore file; a non-zero
   * exit gives the stripped error output as a message, and any exception
   * its own entry.
   */
  function ContainerdSection(settings: Settings, run: CrictlRun, ignoreFile: IgnoreList.CsvFile): (r: ContainerdPart)
    ensures r.error.Some? ==> r.images == [] && r.error.value.source == ContainerdSource
    ensures r.error.None? <==> Parsable(settings, run)
    ensures r.error.None? ==>
              r.images == CrictlImages.Parse(UrlEncoding.DecodeUtf8(run.stdout).value, IgnoreList.IgnoredIds(ignoreFile))
  {
    match run
    case NotRun => ContainerdFailure(CouldNotRun)
    case Exited(code, stdout, stderr) =>
      if code == 0 then
        match UrlEncoding.DecodeUtf8(stdout)
        case None => ContainerdFailure(NotUtf8)
        case Some(output) =>
          if "crictl_config" !in settings then ContainerdFailure(NoSuchSetting("crictl_config"))
          else if "ignore_file_path" !in settings["crictl_config"] then ContainerdFailure(NoSuchSetting("ignore_file_path"))
          else ContainerdPart(CrictlImages.Parse(output, IgnoreList.IgnoredIds(ignoreFile)), None)
      else
        match UrlEncoding.DecodeUtf8(stderr)
        case None => ContainerdFailure(NotUtf8)
        case Some(error) => ContainerdPart([], Some(ErrorEntry(ContainerdSource, Message(CrictlFailedPrefix + Strip(error)))))
  }

  /**
   * The containerd block as the handler is written: the parser it
   * imports takes only the output, so the two-argument call raises
   * `TypeError` after every clean exit, and no local image is ever listed.
   */
  function ContainerdSectionAsWritten(settings: Settings, run: CrictlRun): (r: ContainerdPart)
    ensures r.images == [] && r.error.Some? && r.error.value.source == ContainerdSource
    ensures Parsable(settings, run) ==> r.error.value.error == Exception(ArgumentCount)
  {
    match run
    case NotRun => ContainerdFailure(CouldNotRun)
    case Exited(code, stdout, stderr) =>
      if code == 0 then
        match UrlEncoding.DecodeUtf8(stdout)
        case None => ContainerdFailure(NotUtf8)
        case Some(output) =>
          if "crictl_config" !in settings then ContainerdFailure(NoSuchSetting("crictl_config"))
          else if "ignore_file_path" !in settings["crictl_config"] then ContainerdFailure(NoSuchSetting("ignore_file_path"))
          else ContainerdFailure(ArgumentCount)
      else
        match UrlEncoding.DecodeUtf8(stderr)
        case None => ContainerdFailure(NotUtf8)
        case Some(error) => ContainerdPart([], Some(ErrorEntry(ContainerdSource, Message(CrictlFailedPrefix + Strip(error)))))
  }

  /**
   * The two differ exactly on clean runs: there the intended call lists
   * the parsed images, and the call as written lists none and reports
   * the argument mismatch instead. Everywhere else they agree.
   */
  lemma ArityMismatchHidesLocalImages(settings: Settings, run: CrictlRun, ignoreFile: IgnoreList.CsvFile)
    ensures var fixed, written := ContainerdSection(settings, run, ignoreFile), ContainerdSectionAsWritten(settings, run);
            && (Parsable(settings, run) ==>
                  fixed.error.None? && written == ContainerdFailure(ArgumentCount))
            && (!Parsable(settings, run) ==> fixed == written)
  {
  }

  // ----- the Harbor walk -----

  /** What a stretch of the walk gives: the records it appended, or the exception that ended it. */
  datatype Walk = Walked(records: seq<UnifiedRecord>) | Threw(raised: Raised)

  /** Running `second` after `first`, unless `first` raised. */
  function FollowedBy(first: Walk, second: Walk): Walk
  {
    if first.Threw? then first
    else if second.Threw? then second
    else Walked(first.records + second.records)
  }

  /** The value of `x['name']` once the key is known to be there: null reads as `None`. */
  function NameValue(name: Field<string>): Option<string>
    requires !name.Absent?
  {
    if name.Null? then None else Some(name.value)
  }

  /** `x['digest']` once the key is known to be there. */
  function FieldJson(f: Field<Json>): Json
    requires !f.Absent?
  {
    if f.Null? then JNull else f.value
  }

  /** `artifact.get('size', 'unknown')`. */
  function SizeJson(size: Field<Json>): Json
  {
    match size
    case Absent => JString("unknown")
    case Null => JNull
    case Present(v) => v
  }

  /** A name placed in a URL by an f-string: `None` prints as `None`. */
  function Formatted(name: Option<string>): string
  {
    match name
    case None => "None"
    case Some(s) => s
  }

  /**
   * One element of a tagged artifact's tag list: one record carrying the
   * tag's name, the artifact's digest and size, and the repository and
   * project names. Subscripting a value that is not an object, or a
   * missing `name` or `digest`, raises.
   */
  function TagRecord(repository: Option<string>, project: Option<string>, a: Artifact, tag: Item<TagInfo>): Walk
  {
    match tag
    case NonObject(_) => Threw(Traversal(NotAnObject))
    case Entity(TagInfo(name)) =>
      if name.Absent? then Threw(Traversal(MissingKey("name")))
      else if a.digest.Absent? then Threw(Traversal(MissingKey("digest")))
      else Walked([UnifiedRecord(repository, NameValue(name), FieldJson(a.digest), SizeJson(a.size), project)])
  }

  function TagsRecords(repository: Option<string>, project: Option<string>, a: Artifact, tags: seq<Item<TagInfo>>): Walk
  {
    if tags == [] then Walked([])
    else FollowedBy(TagsRecords(repository, project, a, tags[..|tags| - 1]),
                    TagRecord(repository, project, a, tags[|tags| - 1]))
  }

  /**
   * One artifact: only truthy `tags` contribute, one record per tag.
   * `'tags' in x` on a value that is not an object searches a list's
   * elements or a string's text (a hit makes the subscript raise) and
   * raises on anything else; iterating truthy `tags` that are not a list
   * raises, since a string's or an object's elements are strings and a
   * number is not iterable.
   */
  function ArtifactRecords(repository: Option<string>, project: Option<string>, artifact: Item<Artifact>): Walk
  {
    match artifact
    case NonObject(v) =>
      if v.JArray? then (if JString("tags") in v.items then Threw(Traversal(NotAnObject)) else Walked([]))
      else if v.JString? then (if Contains(v.s, "tags") then Threw(Traversal(NotAnObject)) else Walked([]))
      else Threw(Traversal(NotIterable))
    case Entity(a) =>
      if a.tags.Present? && TagsTruthy(a.tags.value) then
        match a.tags.value
        case TagList(items) => TagsRecords(repository, project, a, items)
        case NotAList(v) => Threw(Traversal(if v.JString? || v.JObject? then NotAnObject else NotIterable))
      else Walked([])
  }

  function ArtifactsRecords(repository: Option<string>, project: Option<string>, artifacts: seq<Item<Artifact>>): Walk
  {
    if artifacts == [] then Walked([])
    else FollowedBy(ArtifactsRecords(repository, project, artifacts[..|artifacts| - 1]),
                    ArtifactRecords(repository, project, artifacts[|artifacts| - 1]))
  }

  /**
   * One repository: its `name` goes into the artifacts URL as it is; a
   * fetch that gives `None` makes the loop over the artifacts raise.
   */
  function RepositoryRecords(h: Harbor, base: string, project: Option<string>, repository: Item<Repository>): Walk
  {
    match repository
    case NonObject(_) => Threw(Traversal(NotAnObject))
    case Entity(Repository(name)) =>
      if name.Absent? then Threw(Traversal(MissingKey("name")))
      else
        var url := HarborImageApi.ArtifactsUrl(base, Formatted(project), Formatted(NameValue(name)));
        match HarborApi.HarborPaginatedResults(h.artifacts, url, map[]).result
        case None => Threw(Traversal(NotIterable))
        case Some(artifacts) => ArtifactsRecords(NameValue(name), project, artifacts)
  }

  function RepositoriesRecords(h: Harbor, base: string, project: Option<string>, repositories: seq<Item<Repository>>): Walk
  {
    if repositories == [] then Walked([])
    else FollowedBy(RepositoriesRecords(h, base, project, repositories[..|repositories| - 1]),
                    RepositoryRecords(h, base, project, repositories[|repositories| - 1]))
  }

  /** One project: its repositories are fetched with no parameters of the caller's. */
  function ProjectRecords(h: Harbor, base: string, project: Item<Project>): Walk
  {
    match project
    case NonObject(_) => Threw(Traversal(NotAnObject))
    case Entity(Project(name)) =>
      if name.Absent? then Threw(Traversal(MissingKey("name")))
      else
        var url := HarborImageApi.RepositoriesUrl(base, Formatted(NameValue(name)));
        match HarborApi.HarborPaginatedResults(h.repositories, url, map[]).result
        case None => Threw(Traversal(NotIterable))
        case Some(repositories) => RepositoriesRecords(h, base, NameValue(name), repositories)
  }

  function ProjectsRecords(h: Harbor, base: string, projects: seq<Item<Project>>): Walk
  {
    if projects == [] then Walked([])
    else FollowedBy(ProjectsRecords(h, base, projects[..|projects| - 1]), ProjectRecords(h, base, projects[|projects| - 1]))
  }

  const ProjectsQuery: Params := map["with_detail" := PStr("false")]

  /**
   * The body of the Harbor `try` block: strip trailing slashes off the
   * `url` setting, list the projects, and walk them.
   */
  function HarborWalk(cfg: Section, h: Harbor): Walk
    requires "url" in cfg
  {
    var url := cfg["url"];
    if !url.JString? then Threw(UrlNotText)
    else
      var base := RStripChar(url.s, '/');
      if "verify_ssl" !in cfg then Threw(NoSuchSetting("verify_ssl"))
      else match HarborApi.HarborPaginatedResults(h.projects, HarborImageApi.ProjectsUrl(base), ProjectsQuery).result
           case None => Threw(Traversal(NotIterable))
           case Some(projects) => ProjectsRecords(h, base, projects)
  }

  /** What the Harbor part contributes, or the setting whose lookup crashed the handler. */
  datatype HarborPart = HarborPart(images: seq<UnifiedRecord>, error: Option<ErrorEntry>) | SettingMissing(key: string)

  /** The three settings the handler reads before it decides to contact the registry. */
  predicate HarborSettingsPresent(settings: Settings)
  {
    "harbor_config" in settings && "url" in settings["harbor_config"]
    && "user" in settings["harbor_config"] && "password" in settings["harbor_config"]
  }

  /** All three of `url`, `user` and `password` are truthy. */
  predicate HarborConfigured(settings: Settings)
    requires HarborSettingsPresent(settings)
  {
    var cfg := settings["harbor_config"];
    Truthy(cfg["url"]) && Truthy(cfg["user"]) && Truthy(cfg["password"])
  }

  /**
   * The Harbor part: incomplete settings give only their message; a walk
   * that raises gives no images and one entry; otherwise every record.
   */
  function HarborSection(settings: Settings, h: Harbor): (r: HarborPart)
    ensures r.SettingMissing? <==> !HarborSettingsPresent(settings)
    ensures r.HarborPart? && r.error.Some? ==> r.images == [] && r.error.value.source == HarborSource
    ensures r.HarborPart? && !HarborConfigured(settings) ==> r == HarborPart([], Some(ErrorEntry(HarborSource, Message(Incomplete))))
  {
    if "harbor_config" !in settings then SettingMissing("harbor_config")
    else
      var cfg := settings["harbor_config"];
      if "url" !in cfg then SettingMissing("url")
      else if "user" !in cfg then SettingMissing("user")
      else if "password" !in cfg then SettingMissing("password")
      else if !(Truthy(cfg["url"]) && Truthy(cfg["user"]) && Truthy(cfg["password"])) then
        HarborPart([], Some(ErrorEntry(HarborSource, Message(Incomplete))))
      else match HarborWalk(cfg, h)
           case Threw(raised) => HarborPart([], Some(ErrorEntry(HarborSource, Exception(raised))))
           case Walked(records) => HarborPart(records, None)
  }

  function Entries(error: Option<ErrorEntry>): seq<ErrorEntry>
  {
    if error.Some? then [error.value] else []
  }

  /** `GET /images`: the containerd part, then the Harbor part, and their error entries in that order. */
  function AllImagesReply(settings: Settings, run: CrictlRun, ignoreFile: IgnoreList.CsvFile, h: Harbor): Reply
  {
    Combined(ContainerdSection(settings, run, ignoreFile), HarborSection(settings, h))
  }

  /** The reply built from the two blocks: containerd's entry comes first. */
  function Combined(c: ContainerdPart, p: HarborPart): Reply
  {
    match p
    case SettingMissing(key) => Crashed(key)
    case HarborPart(images, error) => Answered(AllImages(c.images, images, Entries(c.error) + Entries(error)))
  }

  // ----- exceptions end the loops they interrupt -----

  lemma {:induction false} TagsRecordsAfterFailure(repository: Option<string>, project: Option<string>, a: Artifact,
                                                   tags: seq<Item<TagInfo>>, k: nat)
    requires k <= |tags| && TagsRecords(repository, project, a, tags[..k]).Threw?
    ensures TagsRecords(repository, project, a, tags) == TagsRecords(repository, project, a, tags[..k])
    decreases |tags|
  {
    if |tags| > k {
      var init := tags[..|tags| - 1];
      assert init[..k] == tags[..k];
      TagsRecordsAfterFailure(repository, project, a, init, k);
    } else {
      assert tags[..k] == tags;
    }
  }

  lemma {:induction false} ArtifactsRecordsAfterFailure(repository: Option<string>, project: Option<string>,
                                                        artifacts: seq<Item<Artifact>>, k: nat)
    requires k <= |artifacts| && ArtifactsRecords(repository, project, artifacts[..k]).Threw?
    ensures ArtifactsRecords(repository, project, artifacts) == ArtifactsRecords(repository, project, artifacts[..k])
    decreases |artifacts|
  {
    if |artifacts| > k {
      var init := artifacts[..|artifacts| - 1];
      assert init[..k] == artifacts[..k];
      ArtifactsRecordsAfterFailure(repository, project, init, k);
    } else {
      assert artifacts[..k] == artifacts;
    }
  }

  lemma {:induction false} RepositoriesRecordsAfterFailure(h: Harbor, base: string, project: Option<string>,
                                                           repositories: seq<Item<Repository>>, k: nat)
    requires k <= |repositories| && RepositoriesRecords(h, base, project, repositories[..k]).Threw?
    ensures RepositoriesRecords(h, base, project, repositories) == RepositoriesRecords(h, base, project, repositories[..k])
    decreases |repositories|
  {
    if |repositories| > k {
      var init := repositories[..|repositories| - 1];
      assert init[..k] == repositories[..k];
      RepositoriesRecordsAfterFailure(h, base, project, init, k);
    } else {
      assert repositories[..k] == repositories;
    }
  }

  lemma {:induction false} ProjectsRecordsAfterFailure(h: Harbor, base: string, projects: seq<Item<Project>>, k: nat)
    requires k <= |projects| && ProjectsRecords(h, base, projects[..k]).Threw?
    ensures ProjectsRecords(h, base, projects) == ProjectsRecords(h, base, projects[..k])
    decreases |projects|
  {
    if |projects| > k {
      var init := projects[..|projects| - 1];
      assert init[..k] == projects[..k];
      ProjectsRecordsAfterFailure(h, base, init, k);
    } else {
      assert projects[..k] == projects;
    }
  }

  // ----- the handler's loops -----

  /** The loop over one artifact's tags. */
  method CollectTagRecords(repository: Option<string>, project: Option<string>, a: Artifact, tags: seq<Item<TagInfo>>)
    returns (walk: Walk)
    ensures walk == TagsRecords(repository, project, a, tags)
  {
    var records: seq<UnifiedRecord> := [];
    for k := 0 to |tags|
      invariant TagsRecords(repository, project, a, tags[..k]) == Walked(records)
    {
      assert tags[..k + 1][..k] == tags[..k];
      var tag := tags[k];
      if tag.NonObject? {
        TagsRecordsAfterFailure(repository, project, a, tags, k + 1);
        return Threw(Traversal(NotAnObject));
      }
      var name := tag.value.name;
      if name.Absent? {
        TagsRecordsAfterFailure(repository, project, a, tags, k + 1);
        return Threw(Traversal(MissingKey("name")));
      }
      if a.digest.Absent? {
        TagsRecordsAfterFailure(repository, project, a, tags, k + 1);
        return Threw(Traversal(MissingKey("digest")));
      }
      records := records + [UnifiedRecord(repository, NameValue(name), FieldJson(a.digest), SizeJson(a.size), project)];
    }
    assert tags[..|tags|] == tags;
    walk := Walked(records);
  }

  /** The loop over one repository's artifacts. */
  method CollectArtifactRecords(repository: Option<string>, project: Option<string>, artifacts: seq<Item<Artifact>>)
    returns (walk: Walk)
    ensures walk == ArtifactsRecords(repository, project, artifacts)
  {
    var records: seq<UnifiedRecord> := [];
    for k := 0 to |artifacts|
      invariant ArtifactsRecords(repository, project, artifacts[..k]) == Walked(records)
    {
      assert artifacts[..k + 1][..k] == artifacts[..k];
      var step := ArtifactStep(repository, project, artifacts[k]);
      if step.Threw? {
        ArtifactsRecordsAfterFailure(repository, project, artifacts, k + 1);
        return step;
      }
      records := records + step.records;
    }
    assert artifacts[..|artifacts|] == artifacts;
    walk := Walked(records);
  }

  /** The body of the loop over artifacts: the `tags` test, then the loop over the tags. */
  method ArtifactStep(repository: Option<string>, project: Option<string>, artifact: Item<Artifact>)
    returns (walk: Walk)
    ensures walk == ArtifactRecords(repository, project, artifact)
  {
    match artifact {
      case NonObject(v) =>
        if v.JArray? {
          walk := if JString("tags") in v.items then Threw(Traversal(NotAnObject)) else Walked([]);
        } else if v.JString? {
          walk := if Find(v.s, "tags") != -1 then Threw(Traversal(NotAnObject)) else Walked([]);
        } else {
          walk := Threw(Traversal(NotIterable));
        }
      case Entity(a) =>
        if a.tags.Present? && TagsTruthy(a.tags.value) {
          if a.tags.value.NotAList? {
            var v := a.tags.value.v;
            return Threw(Traversal(if v.JString? || v.JObject? then NotAnObject else NotIterable));
          }
          walk := CollectTagRecords(repository, project, a, a.tags.value.items);
        } else {
          walk := Walked([]);
        }
    }
  }

  /** The loop over one project's repositories. */
  method CollectRepositoryRecords(h: Harbor, base: string, project: Option<string>, repositories: seq<Item<Repository>>)
    returns (walk: Walk)
    ensures walk == RepositoriesRecords(h, base, project, repositories)
  {
    var records: seq<UnifiedRecord> := [];
    for k := 0 to |repositories|
      invariant RepositoriesRecords(h, base, project, repositories[..k]) == Walked(records)
    {
      assert repositories[..k + 1][..k] == repositories[..k];
      var step := RepositoryStep(h, base, project, repositories[k]);
      if step.Threw? {
        RepositoriesRecordsAfterFailure(h, base, project, repositories, k + 1);
        return step;
      }
      records := records + step.records;
    }
    assert repositories[..|repositories|] == repositories;
    walk := Walked(records);
  }

  /** The body of the loop over repositories: fetch the artifacts, then loop over them. */
  method RepositoryStep(h: Harbor, base: string, project: Option<string>, repository: Item<Repository>)
    returns (walk: Walk)
    ensures walk == RepositoryRecords(h, base, project, repository)
  {
    if repository.NonObject? {
      return Threw(Traversal(NotAnObject));
    }
    var name := repository.value.name;
    if name.Absent? {
      return Threw(Traversal(MissingKey("name")));
    }
    var url := HarborImageApi.ArtifactsUrl(base, Formatted(project), Formatted(NameValue(name)));
    var artifacts := HarborApi.GetHarborPaginatedResults(h.artifacts, url, null);
    if artifacts.None? {
      return Threw(Traversal(NotIterable));
    }
    walk := CollectArtifactRecords(NameValue(name), project, artifacts.value);
  }

  /** The loop over the projects. */
  method CollectProjectRecords(h: Harbor, base: string, projects: seq<Item<Project>>) returns (walk: Walk)
    ensures walk == ProjectsRecords(h, base, projects)
  {
    var records: seq<UnifiedRecord> := [];
    for k := 0 to |projects|
      invariant ProjectsRecords(h, base, projects[..k]) == Walked(records)
    {
      assert projects[..k + 1][..k] == projects[..k];
      var step := ProjectStep(h, base, projects[k]);
      if step.Threw? {
        ProjectsRecordsAfterFailure(h, base, projects, k + 1);
        return step;
      }
      records := records + step.records;
    }
    assert projects[..|projects|] == projects;
    walk := Walked(records);
  }

  /** The body of the loop over projects: fetch the repositories, then loop over them. */
  method ProjectStep(h: Harbor, base: string, project: Item<Project>) returns (walk: Walk)
    ensures walk == ProjectRecords(h, base, project)
  {
    if project.NonObject? {
      return Threw(Traversal(NotAnObject));
    }
    var name := project.value.name;
    if name.Absent? {
      return Threw(Traversal(MissingKey("name")));
    }
    var url := HarborImageApi.RepositoriesUrl(base, Formatted(NameValue(name)));
    var repositories := HarborApi.GetHarborPaginatedResults(h.repositories, url, null);
    if repositories.None? {
      return Threw(Traversal(NotIterable));
    }
    walk := CollectRepositoryRecords(h, base, NameValue(name), repositories.value);
  }

  /** The Harbor `try` block: strip the URL, list the projects, walk them. */
  method WalkHarbor(cfg: Section, h: Harbor) returns (walk: Walk)
    requires "url" in cfg
    ensures walk == HarborWalk(cfg, h)
  {
    var url := cfg["url"];
    if !url.JString? {
      return Threw(UrlNotText);
    }
    var base := RStripChar(url.s, '/');
    if "verify_ssl" !in cfg {
      return Threw(NoSuchSetting("verify_ssl"));
    }
    var params := new QueryParams(ProjectsQuery);
    var projects := HarborApi.GetHarborPaginatedResults(h.projects, HarborImageApi.ProjectsUrl(base), params);
    if projects.None? {
      return Threw(Traversal(NotIterable));
    }
    walk := CollectProjectRecords(h, base, projects.value);
  }

  /** The containerd `try` block: run, decode, and parse or report. */
  method ContainerdBlock(settings: Settings, run: CrictlRun, ignoreFile: IgnoreList.CsvFile) returns (part: ContainerdPart)
    ensures part == ContainerdSection(settings, run, ignoreFile)
  {
    match run {
      case NotRun =>
        part := ContainerdFailure(CouldNotRun);
      case Exited(code, stdout, stderr) =>
        if code == 0 {
          var output := UrlEncoding.DecodeUtf8(stdout);
          if output.None? {
            return ContainerdFailure(NotUtf8);
          }
          if "crictl_config" !in settings {
            return ContainerdFailure(NoSuchSetting("crictl_config"));
          }
          if "ignore_file_path" !in settings["crictl_config"] {
            return ContainerdFailure(NoSuchSetting("ignore_file_path"));
          }
          var ignoredIds := IgnoreList.LoadIgnoredImageIds(ignoreFile);
          var images := CrictlImages.ParseCrictlImagesOutput(output.value, Some(ignoredIds));
          part := ContainerdPart(images, None);
        } else {
          var error := UrlEncoding.DecodeUtf8(stderr);
          if error.None? {
            return ContainerdFailure(NotUtf8);
          }
          part := ContainerdPart([], Some(ErrorEntry(ContainerdSource, Message(CrictlFailedPrefix + Strip(error.value)))));
        }
    }
  }

  /**
   * `get_all_images`: the containerd block, then the Harbor block, each
   * adding its images or one error entry to the result.
   */
  method GetAllImages(settings: Settings, run: CrictlRun, ignoreFile: IgnoreList.CsvFile, h: Harbor)
    returns (reply: Reply)
    ensures reply == AllImagesReply(settings, run, ignoreFile, h)
  {
    var containerd := ContainerdBlock(settings, run, ignoreFile);
    var harbor := HarborBlock(settings, h);
    reply := Assemble(containerd, harbor);
  }

  /**
   * The result dictionary: each block's images, and its error entry
   * appended in the order the blocks run; a crashed lookup answers no
   * result at all.
   */
  method Assemble(containerd: ContainerdPart, harbor: HarborPart) returns (reply: Reply)
    ensures reply == Combined(containerd, harbor)
  {
    var containerdImages: seq<CrictlImages.ImageRow> := containerd.images;
    var harborImages: seq<UnifiedRecord> := [];
    var errors: seq<ErrorEntry> := [];
    if containerd.error.Some? {
      errors := errors + [containerd.error.value];
    }
    if harbor.SettingMissing? {
      return Crashed(harbor.key);
    }
    harborImages := harbor.images;
    if harbor.error.Some? {
      errors := errors + [harbor.error.value];
    }
    reply := Answered(AllImages(containerdImages, harborImages, errors));
  }

  /**
   * The Harbor block: the three lookups before the `if` (a missing key
   * is not caught), then the completeness test and the `try` block.
   */
  method HarborBlock(settings: Settings, h: Harbor) returns (part: HarborPart)
    ensures part == HarborSection(settings, h)
  {
    if "harbor_config" !in settings {
      return SettingMissing("harbor_config");
    }
    var cfg := settings["harbor_config"];
    if "url" !in cfg {
      return SettingMissing("url");
    }
    if "user" !in cfg {
      return SettingMissing("user");
    }
    if "password" !in cfg {
      return SettingMissing("password");
    }
    if Truthy(cfg["url"]) && Truthy(cfg["user"]) && Truthy(cfg["password"]) {
      var walk := WalkHarbor(cfg, h);
      if walk.Threw? {
        part := HarborPart([], Some(ErrorEntry(HarborSource, Exception(walk.raised))));
      } else {
        part := HarborPart(walk.records, None);
      }
    } else {
      part := HarborPart([], Some(ErrorEntry(HarborSource, Message(Incomplete))));
    }
  }

  // ----- properties of the answer -----

  /**
   * At most one entry per part, the containerd entry first, and a part
   * that reports an error lists no images.
   */
  lemma ErrorEntriesInOrder(settings: Settings, run: CrictlRun, ignoreFile: IgnoreList.CsvFile, h: Harbor)
    requires AllImagesReply(settings, run, ignoreFile, h).Answered?
    ensures var r := AllImagesReply(settings, run, ignoreFile, h).result;
            && |r.errors| <= 2
            && (forall i :: 0 <= i < |r.errors| ==> r.errors[i].source in {ContainerdSource, HarborSource})
            && (forall i, j :: 0 <= i < j < |r.errors| ==>
                  r.errors[i].source == ContainerdSource && r.errors[j].source == HarborSource)
            && (forall i :: 0 <= i < |r.errors| && r.errors[i].source == ContainerdSource ==> r.containerdImages == [])
            && (forall i :: 0 <= i < |r.errors| && r.errors[i].source == HarborSource ==> r.harborImages == [])
  {
    var c := ContainerdSection(settings, run, ignoreFile);
    var p := HarborSection(settings, h);
    assert ContainerdSource != HarborSource;
    assert AllImagesReply(settings, run, ignoreFile, h).result.errors == Entries(c.error) + Entries(p.error);
  }

  /** A containerd error entry is there exactly when the run did not get as far as parsing. */
  lemma ContainerdErrorIffNotParsed(settings: Settings, run: CrictlRun, ignoreFile: IgnoreList.CsvFile, h: Harbor)
    requires AllImagesReply(settings, run, ignoreFile, h).Answered?
    ensures var r := AllImagesReply(settings, run, ignoreFile, h).result;
            && ((exists i :: 0 <= i < |r.errors| && r.errors[i].source == ContainerdSource) <==> !Parsable(settings, run))
            && (Parsable(settings, run) ==>
                  r.containerdImages
                  == CrictlImages.Parse(UrlEncoding.DecodeUtf8(run.stdout).value, IgnoreList.IgnoredIds(ignoreFile)))
  {
    var c := ContainerdSection(settings, run, ignoreFile);
    var p := HarborSection(settings, h);
    var r := AllImagesReply(settings, run, ignoreFile, h).result;
    assert r.errors == Entries(c.error) + Entries(p.error);
    if !Parsable(settings, run) {
      assert r.errors[0] == c.error.value;
    }
  }

  /** A non-zero exit reports the stripped error output, after the fixed prefix. */
  lemma FailedCrictlReportsStderr(settings: Settings, code: int, stdout: seq<UrlEncoding.Byte>, stderr: seq<UrlEncoding.Byte>,
                                  ignoreFile: IgnoreList.CsvFile, h: Harbor)
    requires code != 0 && UrlEncoding.DecodeUtf8(stderr).Some?
    requires AllImagesReply(settings, Exited(code, stdout, stderr), ignoreFile, h).Answered?
    ensures var r := AllImagesReply(settings, Exited(code, stdout, stderr), ignoreFile, h).result;
            && r.containerdImages == []
            && r.errors[0] == ErrorEntry(ContainerdSource,
                                         Message(CrictlFailedPrefix + Strip(UrlEncoding.DecodeUtf8(stderr).value)))
  {
  }

  /**
   * With `url`, `user` or `password` empty the registry is never
   * contacted: the answer is the same whatever the registry holds, it
   * lists no Harbor image, and its last entry is the incomplete-config one.
   */
  lemma IncompleteConfigSkipsHarbor(settings: Settings, run: CrictlRun, ignoreFile: IgnoreList.CsvFile, h1: Harbor, h2: Harbor)
    requires HarborSettingsPresent(settings) && !HarborConfigured(settings)
    ensures AllImagesReply(settings, run, ignoreFile, h1) == AllImagesReply(settings, run, ignoreFile, h2)
    ensures var reply := AllImagesReply(settings, run, ignoreFile, h1);
            && reply.Answered? && reply.result.harborImages == []
            && reply.result.errors[|reply.result.errors| - 1] == ErrorEntry(HarborSource, Message(Incomplete))
  {
  }

  /**
   * Any exception in the Harbor block discards every record gathered so
   * far: no Harbor image is listed and exactly one Harbor entry reports it.
   */
  lemma HarborFailureListsNothing(settings: Settings, run: CrictlRun, ignoreFile: IgnoreList.CsvFile, h: Harbor)
    requires HarborSettingsPresent(settings) && HarborConfigured(settings)
    requires HarborWalk(settings["harbor_config"], h).Threw?
    ensures var reply := AllImagesReply(settings, run, ignoreFile, h);
            && reply.Answered? && reply.result.harborImages == []
            && reply.result.errors[|reply.result.errors| - 1]
               == ErrorEntry(HarborSource, Exception(HarborWalk(settings["harbor_config"], h).raised))
            && |set i | 0 <= i < |reply.result.errors| && reply.result.errors[i].source == HarborSource| == 1
  {
    var c := ContainerdSection(settings, run, ignoreFile);
    var e := ErrorEntry(HarborSource, Exception(HarborWalk(settings["harbor_config"], h).raised));
    assert HarborSection(settings, h) == HarborPart([], Some(e));
    var errors := Entries(c.error) + [e];
    assert AllImagesReply(settings, run, ignoreFile, h) == Answered(AllImages(c.images, [], errors));
    var last := |errors| - 1;
    assert (set i | 0 <= i < |errors| && errors[i].source == HarborSource) == {last} by {
      assert ContainerdSource != HarborSource;
    }
  }


  /**
   * A configuration loaded over the built-in defaults never crashes the
   * handler, and never fails the containerd block on a missing setting.
   */
  lemma LoadedDefaultsNeverCrash(file: ConfigFile, run: CrictlRun, ignoreFile: IgnoreList.CsvFile, h: Harbor)
    ensures var settings := LoadedConfig(DefaultSettings, file);
            && AllImagesReply(settings, run, ignoreFile, h).Answered?
            && (run.Exited? && run.code == 0 && UrlEncoding.DecodeUtf8(run.stdout).Some? ==> Parsable(settings, run))
  {
    DefaultsKeepEverySetting(file);
  }

  /** One bad project fails the whole walk, and only a bad project does. */
  lemma ProjectsRecordsThrowIff(h: Harbor, base: string, projects: seq<Item<Project>>)
    ensures ProjectsRecords(h, base, projects).Threw?
            <==> exists k :: 0 <= k < |projects| && ProjectRecords(h, base, projects[k]).Threw?
  {
    if ProjectsRecords(h, base, projects).Threw? {
      ProjectsThrowHasCause(h, base, projects);
    } else {
      forall k | 0 <= k < |projects| ensures !ProjectRecords(h, base, projects[k]).Threw? {
        ProjectWalkedAt(h, base, projects, k);
      }
    }
  }

  lemma {:induction false} ProjectsThrowHasCause(h: Harbor, base: string, projects: seq<Item<Project>>)
    requires ProjectsRecords(h, base, projects).Threw?
    ensures exists k :: 0 <= k < |projects| && ProjectRecords(h, base, projects[k]).Threw?
  {
    var init := projects[..|projects| - 1];
    if ProjectsRecords(h, base, init).Threw? {
      ProjectsThrowHasCause(h, base, init);
      var k :| 0 <= k < |init| && ProjectRecords(h, base, init[k]).Threw?;
      assert projects[k] == init[k];
    } else {
      assert ProjectRecords(h, base, projects[|projects| - 1]).Threw?;
    }
  }

  lemma {:induction false} ProjectWalkedAt(h: Harbor, base: string, projects: seq<Item<Project>>, k: nat)
    requires ProjectsRecords(h, base, projects).Walked? && k < |projects|
    ensures ProjectRecords(h, base, projects[k]).Walked?
  {
    var init := projects[..|projects| - 1];
    assert ProjectsRecords(h, base, projects)
           == FollowedBy(ProjectsRecords(h, base, init), ProjectRecords(h, base, projects[|projects| - 1]));
    if k < |init| {
      ProjectWalkedAt(h, base, init, k);
      assert projects[k] == init[k];
    }
  }

  /** One bad repository fails its project, and only a bad repository does. */
  lemma {:induction false} RepositoriesRecordsThrowIff(h: Harbor, base: string, project: Option<string>,
                                                       repositories: seq<Item<Repository>>)
    ensures RepositoriesRecords(h, base, project, repositories).Threw?
            <==> exists k :: 0 <= k < |repositories| && RepositoryRecords(h, base, project, repositories[k]).Threw?
  {
    if repositories != [] {
      var init := repositories[..|repositories| - 1];
      RepositoriesRecordsThrowIff(h, base, project, init);
      var earlier := RepositoriesRecords(h, base, project, init);
      var last := RepositoryRecords(h, base, project, repositories[|repositories| - 1]);
      assert RepositoriesRecords(h, base, project, repositories) == FollowedBy(earlier, last);
      if earlier.Threw? {
        var k :| 0 <= k < |init| && RepositoryRecords(h, base, project, init[k]).Threw?;
        assert repositories[k] == init[k];
      } else if !last.Threw? {
        forall k | 0 <= k < |repositories| ensures !RepositoryRecords(h, base, project, repositories[k]).Threw? {
          if k < |init| {
            assert repositories[k] == init[k];
          }
        }
      }
    }
  }

  /** One bad artifact fails its repository, and only a bad artifact does. */
  lemma {:induction false} ArtifactsRecordsThrowIff(repository: Option<string>, project: Option<string>,
                                                    artifacts: seq<Item<Artifact>>)
    ensures ArtifactsRecords(repository, project, artifacts).Threw?
            <==> exists k :: 0 <= k < |artifacts| && ArtifactRecords(repository, project, artifacts[k]).Threw?
  {
    if artifacts != [] {
      var init := artifacts[..|artifacts| - 1];
      ArtifactsRecordsThrowIff(repository, project, init);
      assert forall k :: 0 <= k < |init| ==> init[k] == artifacts[k];
      if ArtifactRecords(repository, project, artifacts[|artifacts| - 1]).Threw? {
        assert ArtifactsRecords(repository, project, artifacts).Threw?;
      }
    }
  }

  /**
   * An artifact whose tags are absent, null or empty contributes nothing
   * here, where the per-repository service lists it as `<none>`.
   */
  lemma UntaggedArtifactListsNothing(repository: Option<string>, project: Option<string>, a: Artifact, display: string)
    requires !(a.tags.Present? && TagsTruthy(a.tags.value))
    ensures ArtifactRecords(repository, project, Entity(a)) == Walked([])
    ensures HarborImageApi.ArtifactRecords(display, Entity(a))
            == HarborImageApi.Partial([HarborImageApi.HarborRecord(display, HarborImageApi.NoTag)], None)
  {
  }

  /**
   * A list of tag objects that all have a `name`, on an artifact with a
   * `digest`, gives one record per tag, in order, each carrying the tag's
   * name, the artifact's digest and size, and the repository and project.
   */
  lemma {:induction false} NamedTagsGiveOneRecordEach(repository: Option<string>, project: Option<string>, a: Artifact,
                                                      tags: seq<Item<TagInfo>>)
    requires !a.digest.Absent?
    requires forall k :: 0 <= k < |tags| ==> tags[k].Entity? && !tags[k].value.name.Absent?
    ensures var w := TagsRecords(repository, project, a, tags);
            && w.Walked? && |w.records| == |tags|
            && forall k :: 0 <= k < |tags| ==>
                 w.records[k] == UnifiedRecord(repository, NameValue(tags[k].value.name), FieldJson(a.digest),
                                               SizeJson(a.size), project)
  {
    if tags != [] {
      var init := tags[..|tags| - 1];
      assert forall k :: 0 <= k < |init| ==> init[k] == tags[k];
      NamedTagsGiveOneRecordEach(repository, project, a, init);
    }
  }

  /** Every record of a tag list carries the artifact's digest and size and the walk's names. */
  lemma {:induction false} TagRecordsCarryArtifactFields(repository: Option<string>, project: Option<string>, a: Artifact,
                                                         tags: seq<Item<TagInfo>>)
    requires TagsRecords(repository, project, a, tags).Walked?
    ensures var rs := TagsRecords(repository, project, a, tags).records;
            && |rs| == |tags|
            && (tags != [] ==> !a.digest.Absent?)
            && forall k :: 0 <= k < |rs| ==>
                 && rs[k].repository == repository && rs[k].project == project
                 && !a.digest.Absent? && rs[k].digest == FieldJson(a.digest)
                 && rs[k].size == SizeJson(a.size)
  {
    if tags != [] {
      var init := tags[..|tags| - 1];
      TagRecordsCarryArtifactFields(repository, project, a, init);
    }
  }

  /** Records come only from artifacts whose `tags` are a non-empty list. */
  lemma {:induction false} RecordsComeFromTaggedArtifacts(repository: Option<string>, project: Option<string>,
                                                          artifacts: seq<Item<Artifact>>)
    requires ArtifactsRecords(repository, project, artifacts).Walked?
    ensures var rs := ArtifactsRecords(repository, project, artifacts).records;
            forall r :: r in rs ==>
              exists k :: 0 <= k < |artifacts| && artifacts[k].Entity? && artifacts[k].value.tags.Present?
                          && artifacts[k].value.tags.value.TagList? && artifacts[k].value.tags.value.items != []
                          && !artifacts[k].value.digest.Absent? && r.digest == FieldJson(artifacts[k].value.digest)
                          && r.size == SizeJson(artifacts[k].value.size)
  {
    if artifacts != [] {
      var init, last := artifacts[..|artifacts| - 1], artifacts[|artifacts| - 1];
      RecordsComeFromTaggedArtifacts(repository, project, init);
      assert forall k :: 0 <= k < |init| ==> init[k] == artifacts[k];
      var w := ArtifactRecords(repository, project, last);
      if last.Entity? && last.value.tags.Present? && TagsTruthy(last.value.tags.value) && last.value.tags.value.TagList? {
        TagRecordsCarryArtifactFields(repository, project, last.value, last.value.tags.value.items);
        forall r | r in w.records
          ensures exists k :: 0 <= k < |artifacts| && artifacts[k].Entity? && artifacts[k].value.tags.Present?
                              && artifacts[k].value.tags.value.TagList? && artifacts[k].value.tags.value.items != []
                              && !artifacts[k].value.digest.Absent? && r.digest == FieldJson(artifacts[k].value.digest)
                              && r.size == SizeJson(artifacts[k].value.size)
        {
          assert artifacts[|artifacts| - 1] == last;
        }
      }
    }
  }

  /**
   * The repository name goes into the artifacts URL unencoded: the URL
   * holds it as one stretch, and a name with a `/` asks for a different
   * URL than its `quote_plus` encoding would, which has no `/`.
   */
  lemma RepositoryNameIsVerbatim(base: string, project: string, name: string)
    ensures var url := HarborImageApi.ArtifactsUrl(base, project, name);
            var start := |base + "/api/v2.0/projects/" + project + "/repositories/"|;
            && url[start..start + |name|] == name && url[start + |name|..] == "/artifacts"
    ensures '/' in name ==>
              HarborImageApi.ArtifactsUrl(base, project, name)
              != HarborImageApi.ArtifactsUrl(base, project, UrlEncoding.QuotePlus(name))
  {
    var prefix := base + "/api/v2.0/projects/" + project + "/repositories/";
    assert HarborImageApi.ArtifactsUrl(base, project, name) == prefix + name + "/artifacts";
    if '/' in name {
      var quoted := UrlEncoding.QuotePlus(name);
      UrlEncoding.QuotePlusIsOneSegment(name);
      assert HarborImageApi.ArtifactsUrl(base, project, quoted) == prefix + quoted + "/artifacts";
    }
  }
}
