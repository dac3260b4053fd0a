/** The configuration records that more than one model talks about. Fields that the modelled
    code only copies along are grouped into one component. */
module ConfigModel {
  import opened Prelude

  /** Match conditions, logging and metadata of a rule travel together in `body`. */
  datatype PolicyRule = PolicyRule(id: string, name: string, action: string, body: string)

  datatype PolicySettings = PolicySettings(
    description: string, priority: int, disabled: bool, action: string,
    masquerade: Option<bool>, log: bool, logPrefix: string)

  datatype Policy = Policy(
    from: string, to: string, name: string, settings: PolicySettings,
    rules: seq<PolicyRule>, inherits: string)

  datatype ZoneMatch = ZoneMatch(iface: string, src: string, dst: string, vlan: int)

  /** `rest` holds the zone's other attributes (color, services, addresses and so on). */
  datatype Zone = Zone(
    name: string, matches: seq<ZoneMatch>, interfaces: seq<string>, rest: string)
}
