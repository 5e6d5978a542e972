/**
  `extract_host_data` of active_hosts_rux.py: one host record of the API flattened to the
  fourteen columns of the CSV export, with a default for every missing key.
 */
module HostExport {

  import opened Wrappers
  import opened Text

  /** A scalar JSON value as it ends up in a CSV cell. */
  datatype Cell = Str(s: string) | Num(n: int)

  /** An entry of `host_artifact_set`; either key may be missing. */
  datatype Artifact = Artifact(kind: Option<string>, value: Option<string>)

  /** The keys of a host record that the export reads; `None` where the key is missing. */
  datatype Host = Host(
    id: Option<Cell>,
    name: Option<Cell>,
    sensorName: Option<Cell>,
    sensor: Option<Cell>,
    lastSource: Option<Cell>,
    ip: Option<Cell>,
    state: Option<Cell>,
    lastModified: Option<Cell>,
    lastDetectionTimestamp: Option<Cell>,
    threat: Option<Cell>,
    certainty: Option<Cell>,
    privilegeLevel: Option<Cell>,
    privilegeCategory: Option<Cell>,
    artifacts: Option<seq<Artifact>>,
    tags: Option<seq<string>>)

  /** One CSV row, in the export's column order. */
  datatype Row = Row(
    id: Cell,
    name: Cell,
    sensor: Cell,
    lastSource: Cell,
    ipAddress: Cell,
    state: Cell,
    lastModified: Cell,
    lastDetectionTimestamp: Cell,
    threat: Cell,
    certainty: Cell,
    privilegeLevel: Cell,
    privilegeCategory: Cell,
    hostArtifactSet: string,
    tags: string)

  /** `d.get(key, default)` */
  function GetOr<T>(v: Option<T>, default: T): T {
    if v.Some? then v.value else default
  }

  /**
    `f"{type}:{value}"`, each defaulting to "Unknown": the type is read back before the first
    ':' and the value after it, unless the type itself contains a ':'.
   */
  function ArtifactLabel(a: Artifact): (r: string)
    ensures var kind, value := GetOr(a.kind, "Unknown"), GetOr(a.value, "Unknown");
      ':' !in kind ==> Before(r, ':') == kind && After(r, ':') == Some(value)
  {
    var kind, value := GetOr(a.kind, "Unknown"), GetOr(a.value, "Unknown");
    if ':' !in kind then
      SplitAt(kind, ':', value);
      AfterAt(kind, ':', value);
      kind + [':'] + value
    else kind + ":" + value
  }

  /** The label of every artifact, in order. */
  function ArtifactLabels(artifacts: seq<Artifact>): seq<string> {
    seq(|artifacts|, i requires 0 <= i < |artifacts| => ArtifactLabel(artifacts[i]))
  }

  /**
    `extract_host_data`: the artifacts' labels collected in order and joined with "; ", the
    tags joined with ", ", `sensor_name` preferred to `sensor`, `ip` as the address, threat
    and certainty defaulting to 0 and every other column to the empty string.
   */
  method ExtractHostData(host: Host) returns (row: Row)
    ensures row.hostArtifactSet == Join(ArtifactLabels(GetOr(host.artifacts, [])), "; ")
    ensures row.tags == Join(GetOr(host.tags, []), ", ")
    ensures row.sensor ==
      if host.sensorName.Some? then host.sensorName.value
      else if host.sensor.Some? then host.sensor.value
      else Str("")
    ensures row.ipAddress == GetOr(host.ip, Str(""))
    ensures row.threat == GetOr(host.threat, Num(0)) && row.certainty == GetOr(host.certainty, Num(0))
    ensures && row.id == GetOr(host.id, Str("")) && row.name == GetOr(host.name, Str(""))
            && row.lastSource == GetOr(host.lastSource, Str("")) && row.state == GetOr(host.state, Str(""))
            && row.lastModified == GetOr(host.lastModified, Str(""))
            && row.lastDetectionTimestamp == GetOr(host.lastDetectionTimestamp, Str(""))
            && row.privilegeLevel == GetOr(host.privilegeLevel, Str(""))
            && row.privilegeCategory == GetOr(host.privilegeCategory, Str(""))
  {
    var artifacts := GetOr(host.artifacts, []);
    var details: seq<string> := [];
    for i := 0 to |artifacts|
      invariant |details| == i
      invariant forall k :: 0 <= k < i ==> details[k] == ArtifactLabel(artifacts[k])
    {
      var kind := GetOr(artifacts[i].kind, "Unknown");
      var value := GetOr(artifacts[i].value, "Unknown");
      details := details + [kind + ":" + value];
    }
    assert details == ArtifactLabels(artifacts);
    row := Row(
      GetOr(host.id, Str("")),
      GetOr(host.name, Str("")),
      GetOr(host.sensorName, GetOr(host.sensor, Str(""))),
      GetOr(host.lastSource, Str("")),
      GetOr(host.ip, Str("")),
      GetOr(host.state, Str("")),
      GetOr(host.lastModified, Str("")),
      GetOr(host.lastDetectionTimestamp, Str("")),
      GetOr(host.threat, Num(0)),
      GetOr(host.certainty, Num(0)),
      GetOr(host.privilegeLevel, Str("")),
      GetOr(host.privilegeCategory, Str("")),
      Join(details, "; "),
      Join(GetOr(host.tags, []), ", "));
  }

  /**
    When no artifact type or value contains ';', splitting the artifact column at ';' gives
    back one "type:value" label per artifact, in order, each after the first behind the
    joining space.
   */
  lemma ArtifactColumnReadsBack(artifacts: seq<Artifact>)
    requires |artifacts| >= 1
    requires forall k :: 0 <= k < |artifacts| ==>
      ';' !in GetOr(artifacts[k].kind, "Unknown") && ';' !in GetOr(artifacts[k].value, "Unknown")
    ensures Split(Join(ArtifactLabels(artifacts), "; "), ';') == PadTail(ArtifactLabels(artifacts), " ")
  {
    var labels := ArtifactLabels(artifacts);
    forall k | 0 <= k < |labels| ensures ';' !in labels[k] {
      var a := artifacts[k];
      assert labels[k] == GetOr(a.kind, "Unknown") + ":" + GetOr(a.value, "Unknown");
    }
    assert "; " == [';'] + " ";
    SplitJoin(labels, ';', " ");
  }

  /** Likewise the tags column, split at ',', when no tag contains ','. */
  lemma TagColumnReadsBack(tags: seq<string>)
    requires |tags| >= 1
    requires forall k :: 0 <= k < |tags| ==> ',' !in tags[k]
    ensures Split(Join(tags, ", "), ',') == PadTail(tags, " ")
  {
    assert ", " == [','] + " ";
    SplitJoin(tags, ',', " ");
  }
}
