/**
 * The helpers of the web front end (app.py): the port summary shown on a
 * container card, the image name fallback, the selection kept in the
 * session, the job history cap, the column clamp and the download path guard.
 */
module WebApp {
  import opened Wrappers
  import opened Text
  import opened Docker

  // ---------------------------------------------------------------------------
  // format_ports_info (app.py:179-190)

  /** One element of a port's host-config list. */
  datatype HostConfigItem =
    | ConfigItem(hostPort: string)  // a dict; `hostPort` is "" when HostPort is absent or falsy
    | NotAConfigItem                // anything else

  /** The value under a port key. */
  datatype HostConfigs =
    | NoConfigs                       // None
    | ConfigList(items: seq<HostConfigItem>)
    | OtherConfigs                    // anything else that is not a non-empty list

  /** The argument: a mapping from port to host configs, or something that is not a mapping. */
  datatype PortsData =
    | PortsMap(entries: seq<(string, HostConfigs)>)
    | NotAMap

  const NoPortData := "No port data"
  const NoExposedPorts := "No exposed ports"

  /** `f"{host_port}:{port}"` for each dict item with a truthy HostPort. */
  function HostPortItems(items: seq<HostConfigItem>, port: string): seq<string> {
    if |items| == 0 then []
    else
      var item := items[|items| - 1];
      HostPortItems(items[..|items| - 1], port)
        + (if item.ConfigItem? && item.hostPort != "" then [item.hostPort + ":" + port] else [])
  }

  /** The items one port key contributes. */
  function PortItems(port: string, cfgs: HostConfigs): seq<string> {
    match cfgs
    case NoConfigs => ["exposed " + port]
    case ConfigList(items) => HostPortItems(items, port)
    case OtherConfigs => []
  }

  /** The items of all port keys, in the mapping's order. */
  function Bindings(entries: seq<(string, HostConfigs)>): seq<string> {
    if |entries| == 0 then []
    else Bindings(entries[..|entries| - 1]) + PortItems(entries[|entries| - 1].0, entries[|entries| - 1].1)
  }

  /** The summary line. */
  function PortsSummary(data: PortsData): string {
    if data.NotAMap? || |data.entries| == 0 then NoPortData
    else
      var b := Bindings(data.entries);
      if |b| == 0 then NoExposedPorts else Join(b, ", ")
  }

  /** The inner loop of app.py:184-187. */
  method AppendHostPorts(acc: seq<string>, items: seq<HostConfigItem>, port: string) returns (out: seq<string>)
    ensures out == acc + HostPortItems(items, port)
  {
    out := acc;
    var j := 0;
    while j < |items|
      invariant 0 <= j <= |items|
      invariant out == acc + HostPortItems(items[..j], port)
    {
      assert items[..j + 1][..j] == items[..j];
      var item := items[j];
      if item.ConfigItem? {
        var hostPort := item.hostPort;
        if hostPort != "" {
          out := out + [hostPort + ":" + port];
        }
      }
      j := j + 1;
    }
    assert items[..|items|] == items;
  }

  /** `format_ports_info`: the loops of app.py:181-189, then the join. */
  method FormatPortsInfo(data: PortsData) returns (summary: string)
    ensures summary == PortsSummary(data)
  {
    if data.NotAMap? || |data.entries| == 0 {
      return NoPortData;
    }
    var entries := data.entries;
    var bindings: seq<string> := [];
    var i := 0;
    while i < |entries|
      invariant 0 <= i <= |entries|
      invariant bindings == Bindings(entries[..i])
    {
      assert entries[..i + 1][..i] == entries[..i];
      var (port, hostCfgs) := entries[i];
      if hostCfgs.ConfigList? && |hostCfgs.items| > 0 {
        bindings := AppendHostPorts(bindings, hostCfgs.items, port);
      } else if hostCfgs.NoConfigs? {
        bindings := bindings + ["exposed " + port];
      }
      i := i + 1;
    }
    assert entries[..|entries|] == entries;
    summary := if |bindings| > 0 then Join(bindings, ", ") else NoExposedPorts;
  }

  /** An item is listed exactly when one host config of its port has that truthy host port. */
  lemma {:induction false} HostPortItemsMembership(items: seq<HostConfigItem>, port: string, s: string)
    ensures s in HostPortItems(items, port) <==>
      exists j :: 0 <= j < |items| && items[j].ConfigItem? && items[j].hostPort != "" && s == items[j].hostPort + ":" + port
  {
    if |items| > 0 {
      var pre := items[..|items| - 1];
      HostPortItemsMembership(pre, port, s);
      if exists j :: 0 <= j < |pre| && pre[j].ConfigItem? && pre[j].hostPort != "" && s == pre[j].hostPort + ":" + port {
        var j :| 0 <= j < |pre| && pre[j].ConfigItem? && pre[j].hostPort != "" && s == pre[j].hostPort + ":" + port;
        assert items[j] == pre[j];
      }
      if exists j :: 0 <= j < |items| && items[j].ConfigItem? && items[j].hostPort != "" && s == items[j].hostPort + ":" + port {
        var j :| 0 <= j < |items| && items[j].ConfigItem? && items[j].hostPort != "" && s == items[j].hostPort + ":" + port;
        if j < |pre| { assert pre[j] == items[j]; }
      }
    }
  }

  /** An item is listed exactly when some port key contributes it. */
  lemma BindingsMembership(entries: seq<(string, HostConfigs)>, s: string)
    ensures s in Bindings(entries) <==> exists i :: 0 <= i < |entries| && s in PortItems(entries[i].0, entries[i].1)
  {
    if s in Bindings(entries) {
      ListedIsContributed(entries, s);
    }
    if exists i :: 0 <= i < |entries| && s in PortItems(entries[i].0, entries[i].1) {
      var i :| 0 <= i < |entries| && s in PortItems(entries[i].0, entries[i].1);
      ContributedIsListed(entries, s, i);
    }
  }

  lemma {:induction false} ListedIsContributed(entries: seq<(string, HostConfigs)>, s: string)
    requires s in Bindings(entries)
    ensures exists i :: 0 <= i < |entries| && s in PortItems(entries[i].0, entries[i].1)
  {
    var pre, last := entries[..|entries| - 1], entries[|entries| - 1];
    assert Bindings(entries) == Bindings(pre) + PortItems(last.0, last.1);
    if s in Bindings(pre) {
      ListedIsContributed(pre, s);
      var i :| 0 <= i < |pre| && s in PortItems(pre[i].0, pre[i].1);
      assert entries[i] == pre[i];
    } else {
      assert s in PortItems(entries[|entries| - 1].0, entries[|entries| - 1].1);
    }
  }

  lemma {:induction false} ContributedIsListed(entries: seq<(string, HostConfigs)>, s: string, i: nat)
    requires i < |entries| && s in PortItems(entries[i].0, entries[i].1)
    ensures s in Bindings(entries)
  {
    var pre, last := entries[..|entries| - 1], entries[|entries| - 1];
    assert Bindings(entries) == Bindings(pre) + PortItems(last.0, last.1);
    if i < |pre| {
      assert pre[i] == entries[i];
      ContributedIsListed(pre, s, i);
    }
  }

  /**
   * For a non-empty mapping the summary is "No exposed ports" when no port key
   * contributes an item, and the items joined with ", " otherwise.
   */
  lemma NoExposedPortsMeaning(entries: seq<(string, HostConfigs)>)
    requires |entries| > 0
    ensures PortsSummary(PortsMap(entries)) ==
      if forall i :: 0 <= i < |entries| ==> PortItems(entries[i].0, entries[i].1) == []
      then NoExposedPorts else Join(Bindings(entries), ", ")
  {
    var b := Bindings(entries);
    if forall i :: 0 <= i < |entries| ==> PortItems(entries[i].0, entries[i].1) == [] {
      if |b| > 0 {
        BindingsMembership(entries, b[0]);
      }
    } else {
      var i :| 0 <= i < |entries| && PortItems(entries[i].0, entries[i].1) != [];
      BindingsMembership(entries, PortItems(entries[i].0, entries[i].1)[0]);
    }
  }

  // ---------------------------------------------------------------------------
  // get_container_image_name (app.py:165-177)

  /** A container's `Config`: `image` is None when the key is absent; `imageId` is "" when absent or falsy. */
  datatype ConfigValue = ConfigMap(image: Option<string>, imageId: string) | ConfigNotAMap

  /** A container's attrs; a missing `Config` reads as the empty mapping. */
  datatype AttrsValue = AttrsMap(config: ConfigValue) | AttrsNotAMap

  const InvalidAttrs := "Invalid Attrs"
  const InvalidConfig := "Invalid Config"
  const UnknownImageName := "Unknown Image"

  /**
   * The image name shown on a card. `images` is None when there is no
   * client; a failed lookup (missing or erroring) falls back to `Config.Image`.
   */
  function ImageName(attrs: AttrsValue, images: Option<map<string, ImageResult>>): (r: string)
    ensures attrs.AttrsNotAMap? ==> r == InvalidAttrs
    ensures attrs.AttrsMap? && attrs.config.ConfigNotAMap? ==> r == InvalidConfig
  {
    match attrs
    case AttrsNotAMap => InvalidAttrs
    case AttrsMap(config) =>
      match config
      case ConfigNotAMap => InvalidConfig
      case ConfigMap(image, imageId) =>
        var fromConfig := image.GetOr(UnknownImageName);
        if images.Some? && imageId != "" && imageId in images.value
           && images.value[imageId].Tags? && |images.value[imageId].tags| > 0
        then images.value[imageId].tags[0]
        else fromConfig
  }

  /** Without a client the name is `Config.Image`, or "Unknown Image" when the key is absent, whatever `ImageID` is. */
  lemma ImageNameNoClient(image: Option<string>, imageId: string)
    ensures ImageName(AttrsMap(ConfigMap(image, imageId)), None) == image.GetOr(UnknownImageName)
  {
  }

  /** A client that finds a tagged image for a non-empty `ImageID` names the card by its first tag. */
  lemma ImageNameFirstTag(image: Option<string>, imageId: string, images: map<string, ImageResult>, tags: seq<string>)
    requires imageId != "" && imageId in images && images[imageId] == Tags(tags) && |tags| > 0
    ensures ImageName(AttrsMap(ConfigMap(image, imageId)), Some(images)) == tags[0]
  {
  }

  /**
   * An empty or unknown `ImageID`, a failing lookup and an untagged image all
   * give the same name as having no client at all.
   */
  lemma ImageNameFailedLookup(image: Option<string>, imageId: string, images: map<string, ImageResult>)
    requires imageId == "" || imageId !in images || images[imageId] == ApiError || images[imageId] == Tags([])
    ensures ImageName(AttrsMap(ConfigMap(image, imageId)), Some(images)) == ImageName(AttrsMap(ConfigMap(image, imageId)), None)
  {
  }

  /** A well-formed snapshot is named by `Config.Image`, "Unknown Image", or a tag the runtime reports for `ImageID`. */
  lemma ImageNameSource(image: Option<string>, imageId: string, images: Option<map<string, ImageResult>>)
    ensures var r := ImageName(AttrsMap(ConfigMap(image, imageId)), images);
      || r == image.GetOr(UnknownImageName)
      || (images.Some? && imageId in images.value && images.value[imageId].Tags? && r in images.value[imageId].tags)
  {
  }

  // ---------------------------------------------------------------------------
  // Pure rules behind the session updates

  /** A container card as the page lists it. */
  datatype ContainerCard = ContainerCard(id: string, name: string)

  /** One entry of the job history; only its position matters here. */
  datatype JobEntry = JobEntry(filename: string, operation: string, message: string, category: string, timestamp: string)

  const HistoryLimit := 50
  const DefaultColumns := 3

  /** The selection after toggling `id` (app.py:196-201). */
  function Toggle(selected: map<string, string>, id: string, name: string): map<string, string> {
    if id in selected then selected - {id} else selected[id := name]
  }

  /** `{c['id']: c['name'] for c in containers}`: a later card with the same id wins. */
  function IdNameMap(cards: seq<ContainerCard>): map<string, string> {
    if |cards| == 0 then map[]
    else IdNameMap(cards[..|cards| - 1])[cards[|cards| - 1].id := cards[|cards| - 1].name]
  }

  /** `(new + history)[:50]`. */
  function CapHistory(recent: seq<JobEntry>, history: seq<JobEntry>): seq<JobEntry> {
    var all := recent + history;
    if |all| <= HistoryLimit then all else all[..HistoryLimit]
  }

  /** `max(1, min(5, v))`. */
  function ClampColumns(v: int): int {
    if v < 1 then 1 else if v > 5 then 5 else v
  }

  /** The guard of app.py:446. */
  predicate IsRejectedPath(subdir: string, filename: string) {
    IsSubstring("..", subdir) || StartsWith(subdir, "/") || IsSubstring("..", filename) || StartsWith(filename, "/")
  }

  /** Toggling flips membership of the id only, and the count moves by one. */
  lemma ToggleFlips(selected: map<string, string>, id: string, name: string)
    ensures id in Toggle(selected, id, name) <==> id !in selected
    ensures forall other :: other != id ==> (other in Toggle(selected, id, name) <==> other in selected)
    ensures forall other :: other != id && other in selected ==> Toggle(selected, id, name)[other] == selected[other]
    ensures id !in selected ==> Toggle(selected, id, name)[id] == name
    ensures |Toggle(selected, id, name)| == if id in selected then |selected| - 1 else |selected| + 1
  {
    var r := Toggle(selected, id, name);
    if id in selected {
      assert selected.Keys == r.Keys + {id};
    } else {
      assert r.Keys == selected.Keys + {id};
    }
  }

  /** Toggling twice with the same card restores the selection. */
  lemma ToggleTwice(selected: map<string, string>, id: string, name: string)
    requires id !in selected || selected[id] == name
    ensures Toggle(Toggle(selected, id, name), id, name) == selected
  {
  }

  /** Select-all selects exactly the listed ids, each with the name of its last card. */
  lemma {:induction false} IdNameMapSpec(cards: seq<ContainerCard>, id: string)
    ensures id in IdNameMap(cards) <==> exists i :: 0 <= i < |cards| && cards[i].id == id
    ensures forall i :: 0 <= i < |cards| && cards[i].id == id && (forall j :: i < j < |cards| ==> cards[j].id != id) ==>
      IdNameMap(cards)[id] == cards[i].name
  {
    if |cards| > 0 {
      var pre := cards[..|cards| - 1];
      IdNameMapSpec(pre, id);
      if exists i :: 0 <= i < |pre| && pre[i].id == id {
        var i :| 0 <= i < |pre| && pre[i].id == id;
        assert cards[i] == pre[i];
      }
      forall i | 0 <= i < |cards| && cards[i].id == id && (forall j :: i < j < |cards| ==> cards[j].id != id)
        ensures IdNameMap(cards)[id] == cards[i].name
      {
        if i < |pre| {
          assert pre[i] == cards[i];
          forall j | i < j < |pre| ensures pre[j].id != id {
            assert pre[j] == cards[j];
          }
        }
      }
    }
  }

  /**
   * The history never exceeds 50 entries, keeps the newest first in order,
   * and drops only the oldest.
   */
  lemma CapHistorySpec(recent: seq<JobEntry>, history: seq<JobEntry>)
    ensures var r := CapHistory(recent, history);
      && |r| <= HistoryLimit
      && r == (recent + history)[..|r|]
      && (|recent + history| <= HistoryLimit ==> r == recent + history)
      && (|recent| <= HistoryLimit ==> r[..|recent|] == recent)
      && (|recent| >= HistoryLimit ==> r == recent[..HistoryLimit])
  {
    var all := recent + history;
    var r := CapHistory(recent, history);
    if |recent| <= HistoryLimit {
      assert r[..|recent|] == all[..|recent|];
    }
  }

  /** The clamp lands in [1, 5], keeps values already there, and is monotone. */
  lemma ClampColumnsSpec(v: int, w: int)
    ensures 1 <= ClampColumns(v) <= 5
    ensures 1 <= v <= 5 ==> ClampColumns(v) == v
    ensures v <= w ==> ClampColumns(v) <= ClampColumns(w)
    ensures ClampColumns(ClampColumns(v)) == ClampColumns(v)
  {
  }

  /** A path with a ".." component, or an absolute one, is always rejected. */
  lemma RejectsTraversal(subdir: string, filename: string)
    requires ".." in Split(subdir, '/') || ".." in Split(filename, '/') || StartsWith(subdir, "/") || StartsWith(filename, "/")
    ensures IsRejectedPath(subdir, filename)
  {
    if ".." in Split(subdir, '/') {
      SplitPiecesOccur(subdir, '/', "..");
    } else if ".." in Split(filename, '/') {
      SplitPiecesOccur(filename, '/', "..");
    }
  }

  /** An accepted path is relative and names no parent directory. */
  lemma AcceptedIsContained(subdir: string, filename: string)
    requires !IsRejectedPath(subdir, filename)
    ensures ".." !in Split(subdir, '/') && ".." !in Split(filename, '/')
    ensures subdir == [] || subdir[0] != '/'
    ensures filename == [] || filename[0] != '/'
  {
    if ".." in Split(subdir, '/') || ".." in Split(filename, '/') {
      RejectsTraversal(subdir, filename);
    }
  }

  // ---------------------------------------------------------------------------
  // The session (app.py:192-218, 278, 288, 409-412)

  /** The per-browser session: the selection, the job history and the grid width. */
  class Session {
    var selected: map<string, string>
    var jobHistory: seq<JobEntry>
    var numCols: int

    /** `initialize_session_defaults` (app.py:213-219) on a recent session. */
    constructor ()
      ensures selected == map[] && jobHistory == [] && numCols == DefaultColumns
    {
      selected := map[];
      jobHistory := [];
      numCols := DefaultColumns;
    }

    /** `toggle_container_selection_ajax`: whether the card is now selected, and how many are. */
    method ToggleSelection(id: string, name: string) returns (isSelected: bool, count: nat)
      modifies this
      ensures selected == Toggle(old(selected), id, name)
      ensures isSelected <==> id !in old(selected)
      ensures isSelected <==> id in selected
      ensures count == |selected|
      ensures jobHistory == old(jobHistory) && numCols == old(numCols)
    {
      if id in selected {
        selected := selected - {id};
        isSelected := false;
      } else {
        selected := selected[id := name];
        isSelected := true;
      }
      count := |selected|;
    }

    /** `select_all_containers`. */
    method SelectAll(cards: seq<ContainerCard>)
      modifies this
      ensures selected == IdNameMap(cards)
      ensures jobHistory == old(jobHistory) && numCols == old(numCols)
    {
      var m: map<string, string> := map[];
      var i := 0;
      while i < |cards|
        invariant 0 <= i <= |cards|
        invariant m == IdNameMap(cards[..i])
      {
        assert cards[..i + 1][..i] == cards[..i];
        m := m[cards[i].id := cards[i].name];
        i := i + 1;
      }
      assert cards[..|cards|] == cards;
      selected := m;
    }

    /** `deselect_all_containers`. */
    method DeselectAll()
      modifies this
      ensures selected == map[]
      ensures jobHistory == old(jobHistory) && numCols == old(numCols)
    {
      selected := map[];
    }

    /** The "clear job history" action (app.py:277-278). */
    method ClearHistory()
      modifies this
      ensures jobHistory == []
      ensures selected == old(selected) && numCols == old(numCols)
    {
      jobHistory := [];
    }

    /** The end of a POST (app.py:409-412): the request's entries go first, then the cap. */
    method RecordJobs(recent: seq<JobEntry>)
      modifies this
      ensures jobHistory == if |recent| > 0 then CapHistory(recent, old(jobHistory)) else old(jobHistory)
      ensures |old(jobHistory)| <= HistoryLimit ==> |jobHistory| <= HistoryLimit
      ensures selected == old(selected) && numCols == old(numCols)
    {
      if |recent| > 0 {
        jobHistory := CapHistory(recent, jobHistory);
        CapHistorySpec(recent, old(jobHistory));
      }
    }

    /** The column slider (app.py:287-289); None is a value `int()` rejects, which changes nothing. */
    method SetColumns(parsed: Option<int>)
      modifies this
      ensures numCols == if parsed.Some? then ClampColumns(parsed.value) else old(numCols)
      ensures parsed.Some? ==> 1 <= numCols <= 5
      ensures selected == old(selected) && jobHistory == old(jobHistory)
    {
      if parsed.Some? {
        var v := parsed.value;
        numCols := if 1 > (if 5 < v then 5 else v) then 1 else (if 5 < v then 5 else v);
      }
    }
  }
}
