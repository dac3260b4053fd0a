/** The post-load migrations: legacy DNS server, legacy API listener and deprecated zone fields
    (internal/config/migrate_dns.go, migrate_web.go, migrate_zones.go, migrate_registry.go).

    The loader runs them on every load, the version migration runs them again and so does the
    configuration API, so what matters is that neither their order nor the number of runs shows. */
module PostLoadMigrations {
  import opened Prelude
  import opened ConfigModel

  datatype Management = Management(web: bool, webUI: bool, rest: string)

  datatype Interface = Interface(
    name: string, zone: string, accessWebUI: bool, management: Option<Management>, rest: string)

  /** Settings for resolving upstream, shared by the old and the new DNS block. */
  datatype Upstream = Upstream(
    mode: string, forwarders: seq<string>, conditionalForwarders: seq<string>, timeout: int,
    doh: seq<string>, dot: seq<string>, dnscrypt: seq<string>, recursive: Option<string>,
    dnssec: bool)

  /** Settings for answering clients, shared by the old server block and a serve block. */
  datatype Serving = Serving(
    listenPort: int, localDomain: string, filtering: string, caching: string, entries: string)

  datatype DNSServer = DNSServer(
    enabled: bool, listenOn: seq<string>, upstream: Upstream, serving: Serving)

  datatype DNSServe = DNSServe(zone: string, serving: Serving)

  datatype DNS = DNS(upstream: Upstream, serve: seq<DNSServe>, rest: string)

  datatype API = API(
    listen: string, tlsListen: string, tlsCert: string, tlsKey: string,
    disableHTTPRedirect: bool, rest: string)

  datatype AccessRule = AccessRule(
    iface: string, source: string, interfaces: seq<string>, sources: seq<string>)

  datatype Web = Web(
    listen: string, tlsListen: string, tlsCert: string, tlsKey: string, disableRedirect: bool,
    serveUI: bool, serveAPI: bool, allow: seq<AccessRule>, deny: seq<AccessRule>)

  /** A configuration as a value; `rest` is everything the migrations do not look at. */
  datatype ConfigData = ConfigData(
    schemaVersion: string, interfaces: seq<Interface>, zones: seq<Zone>,
    dnsServer: Option<DNSServer>, dns: Option<DNS>, api: Option<API>, web: Option<Web>,
    rest: string)

  const NO_UPSTREAM := Upstream("", [], [], 0, [], [], [], None, false)
  const EMPTY_DNS := DNS(NO_UPSTREAM, [], "")
  const NEW_WEB := Web("", "", "", "", false, true, true, [], [])

  // ----- DNS -----

  predicate DnsConfigured(dns: Option<DNS>) {
    dns.Some? && (dns.value.serve != [] || dns.value.upstream.forwarders != [])
  }

  function MigratedDns(server: Option<DNSServer>, dns: Option<DNS>): Option<DNS> {
    if server.None? || DnsConfigured(dns) then dns
    else
      var base := if dns.Some? then dns.value else EMPTY_DNS;
      var serve := if server.value.enabled then [DNSServe("*", server.value.serving)] else [];
      Some(base.(upstream := server.value.upstream, serve := base.serve + serve))
  }

  function MigrateDns(c: ConfigData): ConfigData {
    c.(dns := MigratedDns(c.dnsServer, c.dns))
  }

  // ----- Web -----

  function OrElse(current: string, legacy: string): string {
    if current == "" then legacy else current
  }

  function WebWithApi(web: Web, api: Option<API>): Web {
    match api
    case None => web
    case Some(a) =>
      web.(listen := OrElse(web.listen, a.listen), tlsListen := OrElse(web.tlsListen, a.tlsListen),
           tlsCert := OrElse(web.tlsCert, a.tlsCert), tlsKey := OrElse(web.tlsKey, a.tlsKey),
           disableRedirect := web.disableRedirect || a.disableHTTPRedirect)
  }

  /** Interfaces opened by the legacy flag or the management block, one entry for each reason. */
  function WebInterfaces(ifaces: seq<Interface>): seq<string> {
    if ifaces == [] then []
    else
      var f := ifaces[|ifaces| - 1];
      WebInterfaces(ifaces[..|ifaces| - 1])
      + (if f.accessWebUI then [f.name] else [])
      + (if f.management.Some? && (f.management.value.web || f.management.value.webUI)
         then [f.name] else [])
  }

  function WithAllow(web: Web, names: seq<string>): Web {
    if web.allow == [] && web.deny == [] && names != []
    then web.(allow := [AccessRule("", "", names, [])])
    else web
  }

  function MigratedWeb(c: ConfigData): Web {
    var web := if c.web.Some? then c.web.value else NEW_WEB;
    WithAllow(WebWithApi(web, c.api), WebInterfaces(c.interfaces))
  }

  function MigrateWeb(c: ConfigData): ConfigData {
    c.(web := Some(MigratedWeb(c)))
  }

  // ----- Zones -----

  function Unconditional(iface: string): ZoneMatch {
    ZoneMatch(iface, "", "", 0)
  }

  predicate HasMatch(z: Zone, iface: string) {
    exists k :: 0 <= k < |z.matches| && z.matches[k].iface == iface
  }

  function AddMatch(z: Zone, iface: string): Zone {
    if HasMatch(z, iface) then z else z.(matches := z.matches + [Unconditional(iface)])
  }

  function NewZone(name: string): Zone {
    Zone(name, [], [], "")
  }

  /** Index of the first zone with the name, or the length when there is none. */
  function FindZone(zones: seq<Zone>, name: string): (k: nat)
    ensures k <= |zones|
    ensures k < |zones| ==> zones[k].name == name
    ensures forall j :: 0 <= j < k ==> zones[j].name != name
  {
    if zones == [] then 0
    else if zones[0].name == name then 0
    else 1 + FindZone(zones[1..], name)
  }

  function FindOrCreate(zones: seq<Zone>, name: string): (r: seq<Zone>)
    ensures FindZone(zones, name) < |r|
  {
    if FindZone(zones, name) < |zones| then zones else zones + [NewZone(name)]
  }

  function Place(zones: seq<Zone>, name: string, iface: string): seq<Zone> {
    var k, zs := FindZone(zones, name), FindOrCreate(zones, name);
    zs[k := AddMatch(zs[k], iface)]
  }

  function PlaceAll(zones: seq<Zone>, ifaces: seq<Interface>): seq<Zone> {
    if ifaces == [] then zones
    else
      var f := ifaces[|ifaces| - 1];
      var placed := PlaceAll(zones, ifaces[..|ifaces| - 1]);
      if f.zone == "" then placed else Place(placed, f.zone, f.name)
  }

  function Absorb(z: Zone): Zone {
    z.(matches := z.matches + Map(z.interfaces, Unconditional), interfaces := [])
  }

  function Unzoned(f: Interface): Interface {
    f.(zone := "")
  }

  function CanonicalZones(c: ConfigData): ConfigData {
    c.(interfaces := Map(c.interfaces, Unzoned),
       zones := Map(PlaceAll(c.zones, c.interfaces), Absorb))
  }

  // ----- The configuration object and the source's in-place updates -----

  datatype Kind = DnsServer | WebFromApi | ZoneFields

  class Config {
    var schemaVersion: string
    var interfaces: seq<Interface>
    var zones: seq<Zone>
    var dnsServer: Option<DNSServer>
    var dns: Option<DNS>
    var api: Option<API>
    var web: Option<Web>
    var rest: string

    function Data(): ConfigData
      reads this
    {
      ConfigData(schemaVersion, interfaces, zones, dnsServer, dns, api, web, rest)
    }

    constructor (c: ConfigData)
      ensures Data() == c
    {
      schemaVersion, interfaces, zones := c.schemaVersion, c.interfaces, c.zones;
      dnsServer, dns, api, web, rest := c.dnsServer, c.dns, c.api, c.web, c.rest;
    }

    method Assign(c: ConfigData)
      modifies this
      ensures Data() == c
    {
      schemaVersion, interfaces, zones := c.schemaVersion, c.interfaces, c.zones;
      dnsServer, dns, api, web, rest := c.dnsServer, c.dns, c.api, c.web, c.rest;
    }

    method MigrateDNSServer()
      modifies this`dns
      ensures Data() == MigrateDns(old(Data()))
    {
      if dnsServer.None? {
        return;
      }
      if dns.Some? && (|dns.value.serve| > 0 || |dns.value.upstream.forwarders| > 0) {
        return;
      }
      if dns.None? {
        dns := Some(EMPTY_DNS);
      }
      dns := Some(dns.value.(upstream := dnsServer.value.upstream));
      assert dns.value.serve + [] == dns.value.serve;
      if dnsServer.value.enabled {
        var serve := DNSServe("*", dnsServer.value.serving);
        dns := Some(dns.value.(serve := dns.value.serve + [serve]));
      }
    }

    /** One legacy field: taken over when the new one is empty and the old one is not. */
    static method TakeField(current: string, legacy: string) returns (s: string)
      ensures s == OrElse(current, legacy)
    {
      s := current;
      if s == "" && legacy != "" {
        s := legacy;
      }
    }

    method TakeApiFields(web: Web) returns (w: Web)
      ensures w == WebWithApi(web, api)
    {
      if api.None? {
        return web;
      }
      var a := api.value;
      var listen := TakeField(web.listen, a.listen);
      var tlsListen := TakeField(web.tlsListen, a.tlsListen);
      var tlsCert := TakeField(web.tlsCert, a.tlsCert);
      var tlsKey := TakeField(web.tlsKey, a.tlsKey);
      var disableRedirect := web.disableRedirect;
      if a.disableHTTPRedirect {
        disableRedirect := true;
      }
      w := web.(listen := listen, tlsListen := tlsListen, tlsCert := tlsCert, tlsKey := tlsKey,
                disableRedirect := disableRedirect);
    }

    method MigrateLegacyAPIConfig()
      modifies this`web
      ensures Data() == MigrateWeb(old(Data()))
    {
      if web.None? {
        web := Some(NEW_WEB);
      }
      var w := TakeApiFields(web.value);
      if |w.allow| == 0 && |w.deny| == 0 {
        var allowed := CollectWebInterfaces();
        if |allowed| > 0 {
          var rule := AccessRule("", "", allowed, []);
          assert w.allow + [rule] == [rule];
          w := w.(allow := w.allow + [rule]);
        }
      }
      web := Some(w);
    }

    method CollectWebInterfaces() returns (allowed: seq<string>)
      ensures allowed == WebInterfaces(interfaces)
    {
      allowed := [];
      for i := 0 to |interfaces|
        invariant allowed == WebInterfaces(interfaces[..i])
      {
        assert interfaces[..i + 1][..i] == interfaces[..i];
        var f := interfaces[i];
        if f.accessWebUI {
          allowed := allowed + [f.name];
        }
        if f.management.Some? && (f.management.value.web || f.management.value.webUI) {
          allowed := allowed + [f.name];
        }
      }
      assert interfaces[..|interfaces|] == interfaces;
    }

    method FindOrCreateZone(name: string) returns (k: nat)
      modifies this`zones
      ensures zones == FindOrCreate(old(zones), name)
      ensures k == FindZone(old(zones), name)
    {
      k := 0;
      while k < |zones| && zones[k].name != name
        invariant k <= FindZone(zones, name)
      {
        k := k + 1;
      }
      if k == |zones| {
        zones := zones + [NewZone(name)];
      }
    }

    method PlaceInterface(name: string, iface: string)
      modifies this`zones
      ensures zones == Place(old(zones), name, iface)
    {
      var k := FindOrCreateZone(name);
      var z := zones[k];
      var already := false;
      for m := 0 to |z.matches|
        invariant already <==> exists j :: 0 <= j < m && z.matches[j].iface == iface
      {
        if z.matches[m].iface == iface {
          already := true;
          break;
        }
      }
      if !already {
        zones := zones[k := z.(matches := z.matches + [Unconditional(iface)])];
      } else {
        assert zones[k := z] == zones;
      }
    }

    /** One interface: placed in the zone it names, and its zone field emptied. */
    method MoveInterface(i: nat)
      requires i < |interfaces|
      modifies this`zones, this`interfaces
      ensures var f := old(interfaces)[i];
              zones == (if f.zone == "" then old(zones) else Place(old(zones), f.zone, f.name))
              && interfaces == old(interfaces)[i := Unzoned(f)]
    {
      if interfaces[i].zone != "" {
        PlaceInterface(interfaces[i].zone, interfaces[i].name);
        interfaces := interfaces[i := interfaces[i].(zone := "")];
      } else {
        assert Unzoned(interfaces[i]) == interfaces[i];
      }
    }

    method CanonicalizeZones()
      modifies this`zones, this`interfaces
      ensures Data() == CanonicalZones(old(Data()))
    {
      ghost var zs, fs := zones, interfaces;
      for i := 0 to |interfaces|
        invariant |interfaces| == |fs|
        invariant forall j :: 0 <= j < i ==> interfaces[j] == Unzoned(fs[j])
        invariant forall j :: i <= j < |fs| ==> interfaces[j] == fs[j]
        invariant zones == PlaceAll(zs, fs[..i])
      {
        assert fs[..i + 1][..i] == fs[..i];
        MoveInterface(i);
      }
      assert fs[..|fs|] == fs;
      assert interfaces == Map(fs, Unzoned);
      AbsorbInterfaces();
    }

    method AbsorbInterfaces()
      modifies this`zones
      ensures zones == Map(old(zones), Absorb)
    {
      ghost var zs := zones;
      for i := 0 to |zones|
        invariant |zones| == |zs|
        invariant forall j :: 0 <= j < i ==> zones[j] == Absorb(zs[j])
        invariant forall j :: i <= j < |zs| ==> zones[j] == zs[j]
      {
        var z := zones[i];
        if |z.interfaces| > 0 {
          var matches := z.matches;
          for k := 0 to |z.interfaces|
            invariant matches == z.matches + Map(z.interfaces[..k], Unconditional)
          {
            matches := matches + [Unconditional(z.interfaces[k])];
          }
          assert z.interfaces[..|z.interfaces|] == z.interfaces;
          zones := zones[i := z.(matches := matches, interfaces := [])];
        } else {
          assert Absorb(z) == z;
        }
      }
    }

    /** Runs the registered migrations in order; `registered` is the registry's list. */
    method ApplyPostLoad(registered: seq<Kind>)
      modifies this
      ensures Data() == RunAll(registered, old(Data()))
    {
      for i := 0 to |registered|
        invariant Data() == RunAll(registered[..i], old(Data()))
      {
        assert registered[..i + 1][..i] == registered[..i];
        match registered[i]
        case DnsServer => MigrateDNSServer();
        case WebFromApi => MigrateLegacyAPIConfig();
        case ZoneFields => CanonicalizeZones();
      }
      assert registered[..|registered|] == registered;
    }
  }

  // ----- Order and repetition do not matter -----

  function RunOne(k: Kind, c: ConfigData): ConfigData {
    match k
    case DnsServer => MigrateDns(c)
    case WebFromApi => MigrateWeb(c)
    case ZoneFields => CanonicalZones(c)
  }

  function RunAll(ks: seq<Kind>, c: ConfigData): ConfigData {
    if ks == [] then c
    else RunOne(ks[|ks| - 1], RunAll(ks[..|ks| - 1], c))
  }

  lemma DnsIdempotent(c: ConfigData)
    ensures MigrateDns(MigrateDns(c)) == MigrateDns(c)
  {
  }

  lemma WebIdempotent(c: ConfigData)
    ensures MigrateWeb(MigrateWeb(c)) == MigrateWeb(c)
  {
  }

  lemma {:induction false} NothingToPlace(zones: seq<Zone>, ifaces: seq<Interface>)
    requires forall f :: f in ifaces ==> f.zone == ""
    ensures PlaceAll(zones, ifaces) == zones
  {
    if ifaces != [] {
      NothingToPlace(zones, ifaces[..|ifaces| - 1]);
    }
  }

  lemma ZonesIdempotent(c: ConfigData)
    ensures CanonicalZones(CanonicalZones(c)) == CanonicalZones(c)
  {
    var d := CanonicalZones(c);
    NothingToPlace(d.zones, d.interfaces);
    forall k | 0 <= k < |d.zones|
      ensures Absorb(d.zones[k]) == d.zones[k]
    {
      assert d.zones[k].interfaces == [];
      assert d.zones[k].matches + [] == d.zones[k].matches;
    }
    assert Map(d.zones, Absorb) == d.zones;
    assert Map(d.interfaces, Unzoned) == d.interfaces;
  }

  lemma {:induction false} WebInterfacesIgnoreZones(ifaces: seq<Interface>)
    ensures WebInterfaces(Map(ifaces, Unzoned)) == WebInterfaces(ifaces)
  {
    if ifaces != [] {
      WebInterfacesIgnoreZones(ifaces[..|ifaces| - 1]);
      assert Map(ifaces, Unzoned)[..|ifaces| - 1] == Map(ifaces[..|ifaces| - 1], Unzoned);
    }
  }

  lemma MigrationsCommute(j: Kind, k: Kind, c: ConfigData)
    ensures RunOne(j, RunOne(k, c)) == RunOne(k, RunOne(j, c))
  {
    WebInterfacesIgnoreZones(c.interfaces);
  }

  lemma MigrationIdempotent(k: Kind, c: ConfigData)
    ensures RunOne(k, RunOne(k, c)) == RunOne(k, c)
  {
    DnsIdempotent(c);
    WebIdempotent(c);
    ZonesIdempotent(c);
  }

  /** The outcome of having run exactly the kinds in `done`, each once. */
  function After(done: set<Kind>, c: ConfigData): ConfigData {
    var c1 := if DnsServer in done then MigrateDns(c) else c;
    var c2 := if WebFromApi in done then MigrateWeb(c1) else c1;
    if ZoneFields in done then CanonicalZones(c2) else c2
  }

  lemma AfterOneMore(k: Kind, done: set<Kind>, c: ConfigData)
    ensures RunOne(k, After(done, c)) == After(done + {k}, c)
  {
    var c1 := if DnsServer in done then MigrateDns(c) else c;
    var c2 := if WebFromApi in done then MigrateWeb(c1) else c1;
    if ZoneFields in done {
      MigrationsCommute(k, ZoneFields, c2);
    }
    if WebFromApi in done {
      MigrationsCommute(k, WebFromApi, c1);
    }
    MigrationIdempotent(k, c);
    MigrationIdempotent(k, c1);
    MigrationIdempotent(k, c2);
  }

  /** Whatever the order and however often: only the set of migrations run decides. */
  lemma {:induction false} OnlyTheSetMatters(ks: seq<Kind>, c: ConfigData)
    ensures RunAll(ks, c) == After((set k | k in ks), c)
  {
    if ks != [] {
      var init, last := ks[..|ks| - 1], ks[|ks| - 1];
      OnlyTheSetMatters(init, c);
      AfterOneMore(last, (set k | k in init), c);
      assert (set k | k in ks) == (set k | k in init) + {last};
    }
  }

  ghost predicate Complete(ks: seq<Kind>) {
    DnsServer in ks && WebFromApi in ks && ZoneFields in ks
  }

  lemma CompleteSchedule(ks: seq<Kind>, c: ConfigData)
    requires Complete(ks)
    ensures RunAll(ks, c) == After({DnsServer, WebFromApi, ZoneFields}, c)
  {
    OnlyTheSetMatters(ks, c);
    forall k | k in ks
      ensures k in {DnsServer, WebFromApi, ZoneFields}
    {
      match k
      case DnsServer =>
      case WebFromApi =>
      case ZoneFields =>
    }
    assert (set k | k in ks) == {DnsServer, WebFromApi, ZoneFields};
  }

  /** Any schedule that runs each migration at least once loads the same configuration, and
      running more of them afterwards, in any way, changes nothing. */
  lemma LoadIsScheduleIndependent(ks: seq<Kind>, other: seq<Kind>, more: seq<Kind>, c: ConfigData)
    requires Complete(ks) && Complete(other)
    ensures RunAll(ks, c) == RunAll(other, c)
    ensures RunAll(more, RunAll(ks, c)) == RunAll(ks, c)
  {
    CompleteSchedule(ks, c);
    CompleteSchedule(other, c);
    CompleteSchedule(ks + more, c);
    RunAllAppend(ks, more, c);
  }

  lemma {:induction false} RunAllAppend(ks: seq<Kind>, more: seq<Kind>, c: ConfigData)
    ensures RunAll(ks + more, c) == RunAll(more, RunAll(ks, c))
  {
    if more == [] {
      assert ks + more == ks;
    } else {
      RunAllAppend(ks, more[..|more| - 1], c);
      assert (ks + more)[..|ks + more| - 1] == ks + more[..|more| - 1];
    }
  }

  lemma {:induction false} VersionUntouched(ks: seq<Kind>, c: ConfigData)
    ensures RunAll(ks, c).schemaVersion == c.schemaVersion
  {
    if ks != [] {
      VersionUntouched(ks[..|ks| - 1], c);
    }
  }

  // ----- What a load produces -----

  /** The web settings after a load: what was set stays, what was empty is taken from the legacy
      field of the same name, and a new block serves both the interface and the API. */
  ghost predicate WebTakenOver(c: ConfigData, w: Web) {
    (c.web.Some? ==>
       var v := c.web.value;
       (v.listen != "" ==> w.listen == v.listen)
       && (v.tlsListen != "" ==> w.tlsListen == v.tlsListen)
       && (v.tlsCert != "" ==> w.tlsCert == v.tlsCert)
       && (v.tlsKey != "" ==> w.tlsKey == v.tlsKey)
       && w.serveUI == v.serveUI && w.serveAPI == v.serveAPI && w.deny == v.deny)
    && (c.web.None? ==> w.serveUI && w.serveAPI && w.deny == [])
    && (c.web.None? || c.web.value.listen == "" ==>
          w.listen == if c.api.Some? then c.api.value.listen else "")
    && (c.web.None? || c.web.value.tlsListen == "" ==>
          w.tlsListen == if c.api.Some? then c.api.value.tlsListen else "")
    && (c.web.None? || c.web.value.tlsCert == "" ==>
          w.tlsCert == if c.api.Some? then c.api.value.tlsCert else "")
    && (c.web.None? || c.web.value.tlsKey == "" ==>
          w.tlsKey == if c.api.Some? then c.api.value.tlsKey else "")
    && (w.disableRedirect
        <==> (c.web.Some? && c.web.value.disableRedirect)
             || (c.api.Some? && c.api.value.disableHTTPRedirect))
  }

  ghost predicate HasRules(c: ConfigData) {
    c.web.Some? && (c.web.value.allow != [] || c.web.value.deny != [])
  }

  /** The two legacy ways of opening the web interface. */
  function Reasons(f: Interface): nat {
    (if f.accessWebUI then 1 else 0)
    + (match f.management
       case None => 0
       case Some(m) => if m.web || m.webUI then 1 else 0)
  }

  function AllReasons(ifaces: seq<Interface>): nat {
    if ifaces == [] then 0
    else AllReasons(ifaces[..|ifaces| - 1]) + Reasons(ifaces[|ifaces| - 1])
  }

  ghost predicate OpenedBy(ifaces: seq<Interface>, name: string) {
    exists i :: 0 <= i < |ifaces| && ifaces[i].name == name && Reasons(ifaces[i]) > 0
  }

  /** The access rules after a load: given ones stay; otherwise the interfaces with a legacy reason
      are allowed by one new rule, each named once per reason. */
  ghost predicate RulesTakenOver(c: ConfigData, w: Web) {
    if HasRules(c) then w.allow == c.web.value.allow
    else if AllReasons(c.interfaces) == 0 then w.allow == []
    else
      |w.allow| == 1
      && w.allow[0] == AccessRule("", "", w.allow[0].interfaces, [])
      && |w.allow[0].interfaces| == AllReasons(c.interfaces)
      && forall name :: name in w.allow[0].interfaces <==> OpenedBy(c.interfaces, name)
  }

  lemma {:induction false} WebInterfacesOpened(ifaces: seq<Interface>, name: string)
    ensures |WebInterfaces(ifaces)| == AllReasons(ifaces)
    ensures name in WebInterfaces(ifaces) <==> OpenedBy(ifaces, name)
  {
    if ifaces != [] {
      var init, f := ifaces[..|ifaces| - 1], ifaces[|ifaces| - 1];
      WebInterfacesOpened(init, name);
      OpenedBySnoc(init, f, name);
      assert ifaces == init + [f];
    }
  }

  lemma OpenedBySnoc(init: seq<Interface>, f: Interface, name: string)
    ensures OpenedBy(init + [f], name)
        <==> OpenedBy(init, name) || (f.name == name && Reasons(f) > 0)
  {
    var all := init + [f];
    assert all[|init|] == f && forall i :: 0 <= i < |init| ==> all[i] == init[i];
  }

  lemma WebIsTakenOver(c: ConfigData)
    ensures WebTakenOver(c, MigratedWeb(c))
  {
  }

  lemma RulesAreTakenOver(c: ConfigData)
    ensures RulesTakenOver(c, MigratedWeb(c))
  {
    WebInterfacesOpened(c.interfaces, "");
    if !HasRules(c) && AllReasons(c.interfaces) > 0 {
      assert MigratedWeb(c).allow == [AccessRule("", "", WebInterfaces(c.interfaces), [])];
      forall name
        ensures name in WebInterfaces(c.interfaces) <==> OpenedBy(c.interfaces, name)
      {
        WebInterfacesOpened(c.interfaces, name);
      }
    }
  }

  lemma LoadedBlocks(ks: seq<Kind>, c: ConfigData)
    requires Complete(ks)
    ensures RunAll(ks, c).web == Some(MigratedWeb(c))
    ensures RunAll(ks, c).dns == MigratedDns(c.dnsServer, c.dns)
  {
    CompleteSchedule(ks, c);
  }

  /** Every complete schedule loads these web settings. */
  lemma LoadedWeb(ks: seq<Kind>, c: ConfigData)
    requires Complete(ks)
    ensures RunAll(ks, c).web.Some?
    ensures WebTakenOver(c, RunAll(ks, c).web.value) && RulesTakenOver(c, RunAll(ks, c).web.value)
  {
    LoadedBlocks(ks, c);
    WebIsTakenOver(c);
    RulesAreTakenOver(c);
  }

  /** Every complete schedule loads this DNS block: a configured one, or any without a legacy
      server, stays; otherwise it resolves like the legacy server and, if that was enabled, serves
      all zones like it. */
  lemma LoadedDns(ks: seq<Kind>, c: ConfigData)
    requires Complete(ks)
    ensures c.dnsServer.None? ==> RunAll(ks, c).dns == c.dns
    ensures c.dns.Some? && (c.dns.value.serve != [] || c.dns.value.upstream.forwarders != []) ==>
              RunAll(ks, c).dns == c.dns
    ensures c.dnsServer.Some?
            && (c.dns.Some? ==>
                  c.dns.value.serve == [] && c.dns.value.upstream.forwarders == []) ==>
              var server, dns := c.dnsServer.value, RunAll(ks, c).dns;
              dns == Some(DNS(server.upstream,
                              if server.enabled then [DNSServe("*", server.serving)] else [],
                              if c.dns.Some? then c.dns.value.rest else ""))
  {
    LoadedBlocks(ks, c);
    assert forall serve: seq<DNSServe> :: [] + serve == serve;
  }

  /** Every complete schedule leaves the rest alone: the legacy blocks stay for later loads, and
      interfaces lose nothing but their zone. */
  lemma LoadedElsewhere(ks: seq<Kind>, c: ConfigData)
    requires Complete(ks)
    ensures var d := RunAll(ks, c);
            d.schemaVersion == c.schemaVersion && d.dnsServer == c.dnsServer && d.api == c.api
            && d.rest == c.rest && |d.interfaces| == |c.interfaces|
            && (forall i :: 0 <= i < |c.interfaces| ==>
                  d.interfaces[i] == c.interfaces[i].(zone := ""))
            && d.zones == CanonicalZones(c).zones
  {
    CompleteSchedule(ks, c);
  }

  // ----- What zone canonicalization preserves -----

  ghost predicate NamedByInterface(ifaces: seq<Interface>, zone: string, iface: string) {
    zone != "" && exists f :: f in ifaces && f.zone == zone && f.name == iface
  }

  ghost predicate ZoneLists(z: Zone, iface: string) {
    iface in z.interfaces || HasMatch(z, iface)
  }

  ghost predicate ZonesMention(zones: seq<Zone>, zone: string, iface: string) {
    exists k :: 0 <= k < |zones| && zones[k].name == zone && ZoneLists(zones[k], iface)
  }

  /** "Zone `zone` mentions interface `iface`", through either deprecated field or a match. */
  ghost predicate Mentions(c: ConfigData, zone: string, iface: string) {
    NamedByInterface(c.interfaces, zone, iface) || ZonesMention(c.zones, zone, iface)
  }

  lemma AddMatchLists(z: Zone, added: string, iface: string)
    ensures HasMatch(AddMatch(z, added), iface) <==> HasMatch(z, iface) || iface == added
  {
    var z' := AddMatch(z, added);
    if !HasMatch(z, added) {
      assert z'.matches[|z.matches|].iface == added;
      assert forall k :: 0 <= k < |z.matches| ==> z'.matches[k] == z.matches[k];
    }
  }

  lemma PlaceMentions(zones: seq<Zone>, name: string, added: string, zone: string, iface: string)
    ensures ZonesMention(Place(zones, name, added), zone, iface)
        <==> ZonesMention(zones, zone, iface) || (zone == name && iface == added)
  {
    var k, zs := FindZone(zones, name), FindOrCreate(zones, name);
    var placed := Place(zones, name, added);
    AddMatchLists(zs[k], added, iface);
    assert placed[k] == AddMatch(zs[k], added) && placed[k].name == name;
    if ZonesMention(zones, zone, iface) {
      var j :| 0 <= j < |zones| && zones[j].name == zone && ZoneLists(zones[j], iface);
      assert ZoneLists(placed[j], iface);
    }
    if zone == name && iface == added {
      assert ZoneLists(placed[k], iface);
    }
    if ZonesMention(placed, zone, iface) && !ZonesMention(zones, zone, iface) {
      var j :| 0 <= j < |placed| && placed[j].name == zone && ZoneLists(placed[j], iface);
      assert j == k;
    }
  }

  lemma {:induction false} PlaceAllMentions(
    zones: seq<Zone>, ifaces: seq<Interface>, zone: string, iface: string)
    ensures ZonesMention(PlaceAll(zones, ifaces), zone, iface)
        <==> ZonesMention(zones, zone, iface) || NamedByInterface(ifaces, zone, iface)
  {
    if ifaces != [] {
      var init, f := ifaces[..|ifaces| - 1], ifaces[|ifaces| - 1];
      PlaceAllMentions(zones, init, zone, iface);
      assert ifaces == init + [f];
      if f.zone != "" {
        PlaceMentions(PlaceAll(zones, init), f.zone, f.name, zone, iface);
      }
    }
  }

  lemma AbsorbLists(z: Zone, iface: string)
    ensures ZoneLists(Absorb(z), iface) <==> ZoneLists(z, iface)
  {
    var z' := Absorb(z);
    if iface in z.interfaces {
      var j :| 0 <= j < |z.interfaces| && z.interfaces[j] == iface;
      assert z'.matches[|z.matches| + j].iface == iface;
    }
    if HasMatch(z, iface) {
      var j :| 0 <= j < |z.matches| && z.matches[j].iface == iface;
      assert z'.matches[j].iface == iface;
    }
  }

  lemma AbsorbMentions(zones: seq<Zone>, zone: string, iface: string)
    ensures ZonesMention(Map(zones, Absorb), zone, iface) <==> ZonesMention(zones, zone, iface)
  {
    var later := Map(zones, Absorb);
    forall k | 0 <= k < |zones|
      ensures ZoneLists(later[k], iface) <==> ZoneLists(zones[k], iface)
    {
      AbsorbLists(zones[k], iface);
    }
    if ZonesMention(zones, zone, iface) {
      var k :| 0 <= k < |zones| && zones[k].name == zone && ZoneLists(zones[k], iface);
      assert later[k].name == zone && ZoneLists(later[k], iface);
    }
  }

  /** The relation survives, and both deprecated fields end up empty. */
  lemma CanonicalZonesKeepMentions(c: ConfigData, zone: string, iface: string)
    ensures Mentions(CanonicalZones(c), zone, iface) <==> Mentions(c, zone, iface)
    ensures forall f :: f in CanonicalZones(c).interfaces ==> f.zone == ""
    ensures forall z :: z in CanonicalZones(c).zones ==> z.interfaces == []
  {
    PlaceAllMentions(c.zones, c.interfaces, zone, iface);
    AbsorbMentions(PlaceAll(c.zones, c.interfaces), zone, iface);
  }

  /** `later` extends `zones`: same zones first, each with its matches kept as a prefix. */
  ghost predicate Extends(zones: seq<Zone>, later: seq<Zone>) {
    |zones| <= |later|
    && forall k :: 0 <= k < |zones| ==>
         later[k].name == zones[k].name && later[k].rest == zones[k].rest
         && later[k].interfaces == zones[k].interfaces && zones[k].matches <= later[k].matches
  }

  ghost predicate Declared(zones: seq<Zone>, name: string) {
    exists k :: 0 <= k < |zones| && zones[k].name == name
  }

  ghost predicate NamesZone(ifaces: seq<Interface>, name: string) {
    name != "" && exists f :: f in ifaces && f.zone == name
  }

  /** Zones past the original ones are new, distinct, and each was named by an interface. */
  ghost predicate AddedOnlyNamed(zones: seq<Zone>, ifaces: seq<Interface>, later: seq<Zone>) {
    forall k :: |zones| <= k < |later| ==>
      !Declared(zones, later[k].name) && NamesZone(ifaces, later[k].name)
      && (forall j :: 0 <= j < k ==> later[j].name != later[k].name)
  }

  lemma PlaceExtends(zones: seq<Zone>, name: string, iface: string)
    ensures Extends(zones, Place(zones, name, iface))
    ensures Declared(Place(zones, name, iface), name)
    ensures |Place(zones, name, iface)| == |zones| + (if Declared(zones, name) then 0 else 1)
    ensures forall k :: |zones| <= k < |Place(zones, name, iface)| ==>
              Place(zones, name, iface)[k].name == name
  {
    assert Place(zones, name, iface)[FindZone(zones, name)].name == name;
  }

  lemma ExtendsDeclares(zones: seq<Zone>, later: seq<Zone>, name: string)
    requires Extends(zones, later) && Declared(zones, name)
    ensures Declared(later, name)
  {
  }

  lemma ExtendsTransitive(zones: seq<Zone>, mid: seq<Zone>, later: seq<Zone>)
    requires Extends(zones, mid) && Extends(mid, later)
    ensures Extends(zones, later)
  {
  }

  /** One more placed interface adds at most its own, still undeclared zone. */
  lemma PlaceAddsNamed(zones: seq<Zone>, ifaces: seq<Interface>, before: seq<Zone>, f: Interface)
    requires Extends(zones, before) && AddedOnlyNamed(zones, ifaces, before) && f.zone != ""
    ensures AddedOnlyNamed(zones, ifaces + [f], Place(before, f.zone, f.name))
  {
  }

  lemma {:induction false} PlaceAllExtends(zones: seq<Zone>, ifaces: seq<Interface>)
    ensures Extends(zones, PlaceAll(zones, ifaces))
    ensures AddedOnlyNamed(zones, ifaces, PlaceAll(zones, ifaces))
  {
    if ifaces != [] {
      var init, f := ifaces[..|ifaces| - 1], ifaces[|ifaces| - 1];
      PlaceAllExtends(zones, init);
      assert ifaces == init + [f];
      PlaceNextExtends(zones, init, PlaceAll(zones, init), f);
    }
  }

  lemma PlaceNextExtends(zones: seq<Zone>, init: seq<Interface>, before: seq<Zone>, f: Interface)
    requires Extends(zones, before) && AddedOnlyNamed(zones, init, before)
    ensures var now := if f.zone == "" then before else Place(before, f.zone, f.name);
            Extends(zones, now) && AddedOnlyNamed(zones, init + [f], now)
  {
    if f.zone == "" {
      NamedByMore(zones, init, f, before);
    } else {
      var now := Place(before, f.zone, f.name);
      assert Extends(zones, now) by {
        PlaceExtends(before, f.zone, f.name);
        ExtendsTransitive(zones, before, now);
      }
      PlaceAddsNamed(zones, init, before, f);
    }
  }

  lemma NamedByMore(zones: seq<Zone>, ifaces: seq<Interface>, f: Interface, later: seq<Zone>)
    requires AddedOnlyNamed(zones, ifaces, later)
    ensures AddedOnlyNamed(zones, ifaces + [f], later)
  {
  }

  lemma {:induction false} PlaceAllDeclares(zones: seq<Zone>, ifaces: seq<Interface>, name: string)
    requires NamesZone(ifaces, name)
    ensures Declared(PlaceAll(zones, ifaces), name)
  {
    var init, f := ifaces[..|ifaces| - 1], ifaces[|ifaces| - 1];
    assert ifaces == init + [f];
    if f.zone != "" {
      PlaceExtends(PlaceAll(zones, init), f.zone, f.name);
    }
    if f.zone != name {
      PlaceAllDeclares(zones, init, name);
      if f.zone != "" {
        ExtendsDeclares(PlaceAll(zones, init), PlaceAll(zones, ifaces), name);
      }
    }
  }

  /** What is added carries no condition, and a new zone nothing but its name and matches. */
  ghost predicate AddedPlainly(zones: seq<Zone>, later: seq<Zone>) {
    forall k :: 0 <= k < |later| ==>
      (k >= |zones| ==> later[k].rest == "")
      && forall m :: m in later[k].matches ==>
           (k < |zones| && m in zones[k].matches) || m == ZoneMatch(m.iface, "", "", 0)
  }

  lemma PlacePlainly(zones: seq<Zone>, before: seq<Zone>, name: string, iface: string)
    requires |zones| <= |before| && AddedPlainly(zones, before)
    ensures AddedPlainly(zones, Place(before, name, iface))
  {
  }

  lemma {:induction false} PlaceAllPlainly(zones: seq<Zone>, ifaces: seq<Interface>)
    ensures AddedPlainly(zones, PlaceAll(zones, ifaces))
  {
    if ifaces != [] {
      var init, f := ifaces[..|ifaces| - 1], ifaces[|ifaces| - 1];
      PlaceAllPlainly(zones, init);
      PlaceAllExtends(zones, init);
      if f.zone != "" {
        PlacePlainly(zones, PlaceAll(zones, init), f.zone, f.name);
      }
    }
  }

  lemma AbsorbedPlainly(zones: seq<Zone>, placed: seq<Zone>)
    ensures AddedPlainly(zones, placed) ==> AddedPlainly(zones, Map(placed, Absorb))
  {
    var later := Map(placed, Absorb);
    forall k, m | 0 <= k < |placed| && m in later[k].matches
      ensures m in placed[k].matches || m == ZoneMatch(m.iface, "", "", 0)
    {
      var z := placed[k];
      assert later[k].matches == z.matches + Map(z.interfaces, Unconditional);
    }
  }

  /** Existing zones stay as an ordered prefix with their matches; only undeclared zones named by
      an interface are added, each once, and none of those is forgotten. */
  lemma CanonicalZonesExtend(c: ConfigData)
    ensures var later := CanonicalZones(c).zones;
            |c.zones| <= |later|
            && (forall k :: 0 <= k < |c.zones| ==>
                  later[k].name == c.zones[k].name && later[k].rest == c.zones[k].rest
                  && c.zones[k].matches <= later[k].matches)
            && AddedOnlyNamed(c.zones, c.interfaces, later)
            && forall n :: NamesZone(c.interfaces, n) ==> Declared(later, n)
    ensures AddedPlainly(c.zones, CanonicalZones(c).zones)
  {
    AbsorbedPlainly(c.zones, PlaceAll(c.zones, c.interfaces));
    PlaceAllPlainly(c.zones, c.interfaces);
    var placed, later := PlaceAll(c.zones, c.interfaces), CanonicalZones(c).zones;
    PlaceAllExtends(c.zones, c.interfaces);
    assert forall k :: 0 <= k < |placed| ==> later[k].name == placed[k].name;
    forall n | NamesZone(c.interfaces, n)
      ensures Declared(later, n)
    {
      PlaceAllDeclares(c.zones, c.interfaces, n);
      var k :| 0 <= k < |placed| && placed[k].name == n;
      assert later[k].name == n;
    }
  }

  // ----- What zone canonicalization can lose -----

  /** The zone takes in the interface with no condition in the match itself. What the zone as a
      whole demands of traffic, kept in `rest`, holds for every match alike. */
  ghost predicate ZonesAdmit(zones: seq<Zone>, zone: string, iface: string) {
    exists k :: 0 <= k < |zones| && zones[k].name == zone && AdmitsAll(zones[k], iface)
  }

  ghost predicate AdmitsAll(z: Zone, iface: string) {
    iface in z.interfaces || Unconditional(iface) in z.matches
  }

  ghost predicate Admits(c: ConfigData, zone: string, iface: string) {
    NamedByInterface(c.interfaces, zone, iface) || ZonesAdmit(c.zones, zone, iface)
  }

  /** The first zone of that name already has some match, however narrow, for the interface. */
  predicate FirstHas(zones: seq<Zone>, zone: string, iface: string) {
    FindZone(zones, zone) < |zones| && HasMatch(zones[FindZone(zones, zone)], iface)
  }

  lemma FindZoneUnique(zones: seq<Zone>, name: string, k: nat)
    requires k <= |zones| && (k < |zones| ==> zones[k].name == name)
    requires forall j :: 0 <= j < k ==> zones[j].name != name
    ensures FindZone(zones, name) == k
  {
  }

  lemma PlaceFirstHas(zones: seq<Zone>, name: string, added: string, zone: string, iface: string)
    ensures FirstHas(Place(zones, name, added), zone, iface)
        <==> FirstHas(zones, zone, iface) || (zone == name && iface == added)
  {
    var k, zs := FindZone(zones, name), FindOrCreate(zones, name);
    var placed := Place(zones, name, added);
    AddMatchLists(zs[k], added, iface);
    FindZoneUnique(placed, zone,
                   if zone == name then k
                   else if FindZone(zones, zone) < |zones| then FindZone(zones, zone)
                   else |placed|);
  }

  lemma PlaceAdmits(zones: seq<Zone>, name: string, added: string, zone: string, iface: string)
    ensures ZonesAdmit(Place(zones, name, added), zone, iface)
        <==> ZonesAdmit(zones, zone, iface)
             || (zone == name && iface == added && !FirstHas(zones, name, added))
  {
    var k, zs := FindZone(zones, name), FindOrCreate(zones, name);
    var placed := Place(zones, name, added);
    assert placed[k] == AddMatch(zs[k], added) && placed[k].name == name;
    if ZonesAdmit(zones, zone, iface) {
      var j :| 0 <= j < |zones| && zones[j].name == zone && AdmitsAll(zones[j], iface);
      assert AdmitsAll(placed[j], iface);
    } else if zone == name && iface == added && !FirstHas(zones, name, added) {
      assert AdmitsAll(placed[k], iface);
    }
    forall j | 0 <= j < |placed| && placed[j].name == zone && AdmitsAll(placed[j], iface)
      ensures ZonesAdmit(zones, zone, iface)
              || (zone == name && iface == added && !FirstHas(zones, name, added))
    {
      if j < |zones| && AdmitsAll(zones[j], iface) {
        assert zones[j].name == zone;
      }
    }
  }

  lemma {:induction false} PlaceAllAdmits(
    zones: seq<Zone>, ifaces: seq<Interface>, zone: string, iface: string)
    ensures FirstHas(PlaceAll(zones, ifaces), zone, iface)
        <==> FirstHas(zones, zone, iface) || NamedByInterface(ifaces, zone, iface)
    ensures ZonesAdmit(PlaceAll(zones, ifaces), zone, iface)
        <==> ZonesAdmit(zones, zone, iface)
             || (NamedByInterface(ifaces, zone, iface) && !FirstHas(zones, zone, iface))
  {
    if ifaces != [] {
      var init, f := ifaces[..|ifaces| - 1], ifaces[|ifaces| - 1];
      PlaceAllAdmits(zones, init, zone, iface);
      assert ifaces == init + [f];
      if f.zone != "" {
        PlaceFirstHas(PlaceAll(zones, init), f.zone, f.name, zone, iface);
        PlaceAdmits(PlaceAll(zones, init), f.zone, f.name, zone, iface);
      }
    }
  }

  lemma CanonicalZonesAdmit(c: ConfigData, zone: string, iface: string)
    ensures Admits(CanonicalZones(c), zone, iface)
        <==> ZonesAdmit(PlaceAll(c.zones, c.interfaces), zone, iface)
  {
  }

  /** Full membership is never gained, and it is lost exactly for an interface that joins through
      its own zone field while the zone already holds a narrower match for it. */
  lemma FullMembershipLostIff(c: ConfigData, zone: string, iface: string)
    ensures Admits(CanonicalZones(c), zone, iface) ==> Admits(c, zone, iface)
    ensures Admits(c, zone, iface) && !Admits(CanonicalZones(c), zone, iface)
        <==> NamedByInterface(c.interfaces, zone, iface) && FirstHas(c.zones, zone, iface)
             && !ZonesAdmit(c.zones, zone, iface)
  {
    CanonicalZonesAdmit(c, zone, iface);
    PlaceAllAdmits(c.zones, c.interfaces, zone, iface);
  }

  /** An instance: eth0 names zone "lan" as its own, which so far holds it for one subnet only. */
  lemma NarrowMatchSuppresses(subnet: string, rest: string)
    requires subnet != ""
    ensures var eth0 := Interface("eth0", "lan", false, None, "");
            var lan := Zone("lan", [ZoneMatch("eth0", subnet, "", 0)], [], rest);
            var c := ConfigData("1.0", [eth0], [lan], None, None, None, None, "");
            Admits(c, "lan", "eth0") && !Admits(CanonicalZones(c), "lan", "eth0")
  {
    var eth0 := Interface("eth0", "lan", false, None, "");
    var lan := Zone("lan", [ZoneMatch("eth0", subnet, "", 0)], [], rest);
    var c := ConfigData("1.0", [eth0], [lan], None, None, None, None, "");
    assert eth0 in c.interfaces && c.zones[0] == lan && lan.matches[0].iface == "eth0";
    assert !AdmitsAll(lan, "eth0");
    FullMembershipLostIff(c, "lan", "eth0");
  }
}
