/** The ownership and reference checks on the Compose source of one hosted workload. */
module WorkloadSource {

  import opened Texts
  import opened Wrappers
  import opened WorkloadNames

  /** `exact`: the definition binds the external secret of the project, and nothing else. */
  datatype Secret = Secret(name: string, exact: bool)

  /** `plain`: the definition is null or empty. */
  datatype VolumeEntry = VolumeEntry(name: string, plain: bool)

  /** The definition, when it consists of the `internal` flag alone. */
  datatype NetworkEntry = NetworkEntry(name: string, internalFlag: Option<bool>)

  datatype Grant = Grant(source: string, target: string)

  /** `files`: the secret targets that `_FILE` variables point to; absent when the path is
      not of that form.  `mounts`: the volume sources, all mounted on the one allowed
      target.  `attached`: the networks joined, each with whether it sets no options.
      `onlyNetworks`: a mapping of networks is the only key.  `sound`: the remaining checks on the service. */
  datatype Service = Service(
    name: string, grants: seq<Grant>, files: seq<Option<string>>, attached: seq<(string, bool)>,
    mounts: seq<string>, onlyNetworks: bool, sound: bool)

  datatype Source = Source(
    secrets: seq<Secret>, volumes: seq<VolumeEntry>, networks: seq<NetworkEntry>, services: seq<Service>)

  /** The platform's own names, which no workload may use. */
  datatype Platform = Platform(services: set<string>, secrets: set<string>, volumes: set<string>, networks: set<string>)

  /** One check: whose source, among which identifiers, with which manifest secrets. */
  datatype Check = Check(id: string, ids: seq<string>, declared: set<string>, platform: Platform)

  const EXTENSIONS: map<string, seq<string>> := map[
    "project-router" := ["ingress"],
    "postgres" := ["postgres"],
    "redis" := ["cache"],
    "nats" := ["bus"],
    "keycloak" := ["identity"],
    "minio" := ["storage"],
    "prometheus" := ["observability"]]

  /** `SERVICE_NAME`. */
  predicate IsServiceName(s: string) {
    && 2 <= |s| <= 63 && IsLower(s[0])
    && forall i :: 1 <= i < |s| ==> IsIdChar(s[i])
  }

  function Targets(grants: seq<Grant>): set<string> {
    set g | g in grants :: g.target
  }

  // ---------------------------------------------------------------- what is promised

  /** `name` belongs to the workload under the scheme and is no name of the platform. */
  ghost predicate Own(c: Check, scheme: Scheme, name: string, taken: set<string>) {
    Owns(scheme, c.id, name) && name !in taken
  }

  /** The workload's network of one of these zones. */
  ghost predicate OwnZone(c: Check, network: string, zones: seq<string>) {
    exists zone :: zone in zones && network == NetworkName(c.id, zone)
  }

  /** The workload's network of one zone, internal unless that zone is egress. */
  ghost predicate OwnNetwork(c: Check, n: NetworkEntry) {
    && n.name !in c.platform.networks
    && exists zone :: zone in ZONES && n.name == NetworkName(c.id, zone) && n.internalFlag == Some(zone != "egress")
  }

  ghost predicate GrantsConform(c: Check, s: Service) {
    && (forall i :: 0 <= i < |s.grants| ==>
          var g := s.grants[i];
          && IsIdText(g.source, 63) && IsIdText(g.target, 63) && g.source in c.declared
          && Own(c, Hyphen, g.source, c.platform.secrets))
    && (forall i, j :: 0 <= i < j < |s.grants| ==> s.grants[i].target != s.grants[j].target)
    && (forall i :: 0 <= i < |s.files| ==> s.files[i].Some? && s.files[i].value in Targets(s.grants))
  }

  /** A service joins networks of its workload only.  A stub of a platform service does
      nothing else, and only in the zones that service is for; any other service is the
      workload's own, with its own secrets and at most one mount, of its own volume. */
  ghost predicate ServiceConforms(c: Check, s: Service) {
    && s.sound
    && (forall i :: 0 <= i < |s.attached| ==>
          Own(c, Network, s.attached[i].0, c.platform.networks) && s.attached[i].1)
    && if s.name in EXTENSIONS then
         && s.onlyNetworks && s.attached != []
         && forall i :: 0 <= i < |s.attached| ==> OwnZone(c, s.attached[i].0, EXTENSIONS[s.name])
       else
         && Own(c, Hyphen, s.name, c.platform.services) && GrantsConform(c, s)
         && |s.mounts| <= 1 && forall i :: 0 <= i < |s.mounts| ==> Own(c, Volume, s.mounts[i], c.platform.volumes)
  }

  /** Everything a workload's source must be, in terms of who owns which name. */
  ghost predicate Conforms(c: Check, source: Source) {
    && Accepted(c.ids) && c.id in c.ids
    && (forall i :: 0 <= i < |source.secrets| ==>
          var s := source.secrets[i];
          Own(c, Hyphen, s.name, c.platform.secrets) && s.name in c.declared && s.exact)
    && (forall i :: 0 <= i < |source.volumes| ==>
          Own(c, Volume, source.volumes[i].name, c.platform.volumes) && source.volumes[i].plain)
    && (forall i :: 0 <= i < |source.networks| ==> OwnNetwork(c, source.networks[i]))
    && (forall i :: 0 <= i < |source.services| ==> ServiceConforms(c, source.services[i]))
  }

  // ---------------------------------------------------------------- what the branches look at

  predicate OwnedBy(c: Check, scheme: Scheme, name: string) {
    CanonicalOwner(scheme, c.ids, name) == Some(c.id)
  }

  /** What follows the workload's prefix in a network name. */
  function Zone(c: Check, network: string): string {
    var prefix := Underscored(c.id) + "_";
    if prefix <= network then network[|prefix|..] else network
  }

  predicate InZone(c: Check, network: string) {
    Underscored(c.id) + "_" <= network && Zone(c, network) in ZONES
  }

  /** The selection among all identifiers decides ownership by this one. */
  lemma OwnedByMeansOwns(c: Check, scheme: Scheme, name: string)
    requires Accepted(c.ids) && c.id in c.ids
    ensures OwnedBy(c, scheme, name) <==> Owns(scheme, c.id, name)
  {
    CanonicalOwnerDecides(scheme, c.ids, name);
  }

  lemma ZoneOfOwn(c: Check, network: string, zone: string)
    ensures network == NetworkName(c.id, zone) ==> Underscored(c.id) + "_" <= network && Zone(c, network) == zone
    ensures Underscored(c.id) + "_" <= network ==> network == NetworkName(c.id, Zone(c, network))
  {}

  /** For a network of the workload the text after the prefix is its zone. */
  lemma ZoneDecides(c: Check, network: string, zones: seq<string>)
    requires Owns(Network, c.id, network)
    ensures InZone(c, network)
    ensures Zone(c, network) in zones <==> OwnZone(c, network, zones)
  {
    var zone :| zone in ZONES && network == NetworkName(c.id, zone);
    ZoneOfOwn(c, network, zone);
    forall z ensures network == NetworkName(c.id, z) ==> z == zone {
      ZoneOfOwn(c, network, z);
    }
  }

  lemma NetworkFlagDecides(c: Check, n: NetworkEntry)
    requires Owns(Network, c.id, n.name) && n.name !in c.platform.networks
    ensures n.internalFlag == Some(Zone(c, n.name) != "egress") <==> OwnNetwork(c, n)
  {
    var zone :| zone in ZONES && n.name == NetworkName(c.id, zone);
    ZoneOfOwn(c, n.name, zone);
    forall z ensures n.name == NetworkName(c.id, z) ==> z == zone {
      ZoneOfOwn(c, n.name, z);
    }
  }

  // ---------------------------------------------------------------- the checks

  /** The grants of a service, filling the table of targets. */
  method CheckGrants(c: Check, s: Service) returns (ok: bool)
    requires Accepted(c.ids) && c.id in c.ids
    ensures ok <==> GrantsConform(c, s)
  {
    hide OwnedBy, Owns, Accepted, IsIdText;
    var targets: set<string> := {};
    for i := 0 to |s.grants|
      invariant forall k :: 0 <= k < i ==>
                  var g := s.grants[k];
                  && IsIdText(g.source, 63) && IsIdText(g.target, 63) && g.source in c.declared
                  && Own(c, Hyphen, g.source, c.platform.secrets)
      invariant targets == Targets(s.grants[..i])
      invariant forall x, y :: 0 <= x < y < i ==> s.grants[x].target != s.grants[y].target
    {
      var g := s.grants[i];
      OwnedByMeansOwns(c, Hyphen, g.source);
      IdTextMeans(g.source, 63);
      IdTextMeans(g.target, 63);
      if !IsServiceName(g.source) || !IsServiceName(g.target) || g.source !in c.declared { return false; }
      if !OwnedBy(c, Hyphen, g.source) || g.source in c.platform.secrets { return false; }
      if g.target in targets {
        var earlier :| earlier in s.grants[..i] && earlier.target == g.target;
        return false;
      }
      assert s.grants[..i + 1] == s.grants[..i] + [g];
      targets := targets + {g.target};
    }
    assert s.grants[..|s.grants|] == s.grants;
    for i := 0 to |s.files|
      invariant forall k :: 0 <= k < i ==> s.files[k].Some? && s.files[k].value in Targets(s.grants)
    {
      if s.files[i].None? || s.files[i].value !in targets { return false; }
    }
    return true;
  }

  /** The networks a service joins; for a stub each also in a zone of the platform service. */
  method CheckAttached(c: Check, s: Service) returns (ok: bool)
    requires Accepted(c.ids) && c.id in c.ids
    ensures ok <==>
            && (forall i :: 0 <= i < |s.attached| ==>
                  Own(c, Network, s.attached[i].0, c.platform.networks) && s.attached[i].1)
            && (s.name in EXTENSIONS ==>
                  && s.onlyNetworks && s.attached != []
                  && forall i :: 0 <= i < |s.attached| ==> OwnZone(c, s.attached[i].0, EXTENSIONS[s.name]))
  {
    hide OwnedBy, Owns, Accepted, InZone, Zone, OwnZone;
    for i := 0 to |s.attached|
      invariant forall k :: 0 <= k < i ==> Own(c, Network, s.attached[k].0, c.platform.networks) && s.attached[k].1
    {
      var network := s.attached[i].0;
      OwnedByMeansOwns(c, Network, network);
      if network in c.platform.networks || !OwnedBy(c, Network, network) { return false; }
      ZoneDecides(c, network, ZONES);
      if !InZone(c, network) || !s.attached[i].1 { return false; }
    }
    if s.name !in EXTENSIONS { return true; }
    if !s.onlyNetworks || s.attached == [] { return false; }
    for i := 0 to |s.attached|
      invariant forall k :: 0 <= k < i ==> OwnZone(c, s.attached[k].0, EXTENSIONS[s.name])
    {
      ZoneDecides(c, s.attached[i].0, EXTENSIONS[s.name]);
      if Zone(c, s.attached[i].0) !in EXTENSIONS[s.name] { return false; }
    }
    return true;
  }

  method CheckService(c: Check, s: Service) returns (ok: bool)
    requires Accepted(c.ids) && c.id in c.ids
    ensures ok <==> ServiceConforms(c, s)
  {
    hide OwnedBy, Owns, Accepted, OwnZone, GrantsConform;
    var workloadService := s.name !in EXTENSIONS;
    if workloadService {
      OwnedByMeansOwns(c, Hyphen, s.name);
      if s.name in c.platform.services || !OwnedBy(c, Hyphen, s.name) { return false; }
      var granted := CheckGrants(c, s);
      if !granted { return false; }
    }
    var attached := CheckAttached(c, s);
    if !attached { return false; }
    if !workloadService { return s.sound; }
    for i := 0 to |s.mounts|
      invariant i <= 1 && forall k :: 0 <= k < i ==> Own(c, Volume, s.mounts[k], c.platform.volumes)
    {
      OwnedByMeansOwns(c, Volume, s.mounts[i]);
      if s.mounts[i] in c.platform.volumes || !OwnedBy(c, Volume, s.mounts[i]) { return false; }
      if i > 0 { return false; } // the one target a second time
    }
    return s.sound;
  }

  /** The ownership part of `validate_source_model` for a workload. */
  method Validate(c: Check, source: Source) returns (ok: bool)
    ensures ok <==> Conforms(c, source)
  {
    hide OwnedBy, Owns, Accepted, Zone, InZone, OwnNetwork, ServiceConforms;
    var error := ValidateIds(c.ids);
    if error.Some? || c.id !in c.ids { return false; }
    for i := 0 to |source.secrets|
      invariant forall k :: 0 <= k < i ==>
                  var s := source.secrets[k];
                  Own(c, Hyphen, s.name, c.platform.secrets) && s.name in c.declared && s.exact
    {
      var s := source.secrets[i];
      OwnedByMeansOwns(c, Hyphen, s.name);
      if !OwnedBy(c, Hyphen, s.name) || s.name in c.platform.secrets || s.name !in c.declared || !s.exact {
        return false;
      }
    }
    for i := 0 to |source.volumes|
      invariant forall k :: 0 <= k < i ==>
                  Own(c, Volume, source.volumes[k].name, c.platform.volumes) && source.volumes[k].plain
    {
      var v := source.volumes[i];
      OwnedByMeansOwns(c, Volume, v.name);
      if !OwnedBy(c, Volume, v.name) || v.name in c.platform.volumes || !v.plain { return false; }
    }
    for i := 0 to |source.networks|
      invariant forall k :: 0 <= k < i ==> OwnNetwork(c, source.networks[k])
    {
      var networkOk := CheckNetwork(c, source.networks[i]);
      if !networkOk { return false; }
    }
    for i := 0 to |source.services|
      invariant forall k :: 0 <= k < i ==> ServiceConforms(c, source.services[k])
    {
      var serviceOk := CheckService(c, source.services[i]);
      if !serviceOk { return false; }
    }
    return true;
  }

  /** One declared network: accepted exactly as the workload's network of one zone, with
      the flag that zone calls for. */
  method CheckNetwork(c: Check, n: NetworkEntry) returns (ok: bool)
    requires Accepted(c.ids) && c.id in c.ids
    ensures ok <==> OwnNetwork(c, n)
  {
    OwnedByMeansOwns(c, Network, n.name);
    OwnNetworkIsOwned(c, n);
    hide OwnedBy, Owns, Accepted, Zone, InZone, OwnNetwork;
    if Owns(Network, c.id, n.name) { ZoneDecides(c, n.name, ZONES); }
    if !InZone(c, n.name) || !OwnedBy(c, Network, n.name) || n.name in c.platform.networks { return false; }
    NetworkFlagDecides(c, n);
    return n.internalFlag == Some(Zone(c, n.name) != "egress");
  }

  lemma OwnNetworkIsOwned(c: Check, n: NetworkEntry)
    ensures OwnNetwork(c, n) ==> Owns(Network, c.id, n.name) && n.name !in c.platform.networks
  {}

  // ---------------------------------------------------------------- what two workloads share

  /** Names a source declares or uses under a scheme; the stubs of platform services are
      not among its own services. */
  ghost predicate Uses(source: Source, scheme: Scheme, name: string) {
    match scheme
    case Hyphen =>
      || (exists s :: s in source.secrets && s.name == name)
      || (exists s :: s in source.services && s.name !in EXTENSIONS
            && (s.name == name || exists g :: g in s.grants && g.source == name))
    case Volume =>
      || (exists v :: v in source.volumes && v.name == name)
      || (exists s :: s in source.services && s.name !in EXTENSIONS && name in s.mounts)
    case Network =>
      || (exists n :: n in source.networks && n.name == name)
      || (exists s, a :: s in source.services && a in s.attached && a.0 == name)
  }

  /** Whatever a conforming source declares or refers to is its workload's own. */
  lemma UsesOnlyItsOwn(c: Check, source: Source, scheme: Scheme, name: string)
    requires Conforms(c, source) && Uses(source, scheme, name)
    ensures Owns(scheme, c.id, name)
  {
    hide IsIdText, Accepted;
    forall s | s in source.services ensures ServiceConforms(c, s) {}
    forall n | n in source.networks ensures Owns(Network, c.id, n.name) {
      OwnNetworkIsOwned(c, n);
    }
  }

  /** Two workloads accepted against one set of identifiers have no service, secret,
      volume or network in common, declared or referred to: no name has two owners. */
  lemma WorkloadsAreDisjoint(c: Check, source: Source, d: Check, other: Source, scheme: Scheme, name: string)
    requires c.ids == d.ids && c.id != d.id
    requires Conforms(c, source) && Conforms(d, other)
    ensures !(Uses(source, scheme, name) && Uses(other, scheme, name))
  {
    hide Uses, Owns;
    if Uses(source, scheme, name) && Uses(other, scheme, name) {
      UsesOnlyItsOwn(c, source, scheme, name);
      UsesOnlyItsOwn(d, other, scheme, name);
      OwnerIsUnique(scheme, c.ids, c.id, d.id, name);
    }
  }
}
