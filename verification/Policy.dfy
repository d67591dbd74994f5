/** Who may publish and subscribe to what: permissions derived from the registry, role by role
    (src/lumi/contracts/policy.py). */
module Policy {
  import opened Common
  import opened Contracts
  import opened RegexText

  const READ_ONLY_OPS: set<string> := {
    "image", "get_camera_config", "get_all_config", "get_config", "get_configs_by_section", "get_sections",
    "log", "list_log_files", "log_window", "list_recordings", "recording_info", "recording_frame",
    "recording_frame_jpeg", "recording_integration", "recording_log", "measurement_file", "list_snapshots",
    "snapshot_jpeg", "snapshot_frame", "list_structures", "get_structure", "rheed_spots", "simulate_rheed",
    "simulate_rheed_jpeg", "bboxes", "cache", "list_markers", "marker_stats", "marker_history", "list_roles",
    "detection", "initial_fragments", "initial_fragments_size", "video_fragment", "list_execution",
    "list_nodes", "get_node", "wait_for", "list_hosts", "show_available_targets", "get_target_name_by_id",
    "get_target_id_by_name", "current_substrate", "list_substrates", "get_substrate", "list_projects",
    "get_project", "list_experiments", "get_experiment", "list_records", "get_record", "get_measurement",
    "list_measurements", "list_samples", "get_sample", "sample_history", "get_current_log",
    "get_current_pressure", "get_current_temperature", "get_valve_status", "get_mfc_status", "get_pump_status",
    "is_motor_free", "get_current_mask_position", "check_logging_alive" }

  predicate OnlyReads(op: Op) {
    op.name in READ_ONLY_OPS
  }

  datatype Permission = Permission(write: string, read: string)

  datatype PolicyError = UnknownRole | NotInList

  /** A capability with the contract that declares it. */
  datatype Declared = Declared(equipment: string, exchange: string, cap: Capability)
  {
    function K(): RoutingKeys {
      Keys(equipment, cap.name)
    }

    predicate Is(equipmentName: string, capabilityName: string) {
      equipment == equipmentName && cap.name == capabilityName
    }
  }

  function CapabilitiesOf(c: EquipmentContract, n: nat): (r: seq<Declared>)
    requires n <= |c.capabilities|
    ensures |r| == n
  {
    if n == 0 then [] else CapabilitiesOf(c, n - 1) + [Declared(c.name, c.exchange, c.capabilities[n - 1])]
  }

  /** Every capability of the registry, contract by contract. */
  function AllCapabilities(registry: seq<EquipmentContract>): seq<Declared> {
    if registry == [] then []
    else
      var last := registry[|registry| - 1];
      AllCapabilities(registry[..|registry| - 1]) + CapabilitiesOf(last, |last.capabilities|)
  }

  // ----- the lists of keys, by exchange ---------------------------------------------------------

  datatype Lists = Lists(write: seq<string>, read: seq<string>)

  const NO_KEYS: Lists := Lists([], [])

  datatype Role = Viewer | Operator

  /** The verbs a role may send; any order of them gives the same expression. */
  function Verbs(role: Role): seq<string> {
    if role == Viewer then ["start", "stop", "state"] else ["start", "stop", "state", "config"]
  }

  predicate MaySend(role: Role, d: Declared, op: Op) {
    if role == Viewer then OnlyReads(op) else !d.Is("system", "supervisor") || OnlyReads(op)
  }

  function RequestKeys(role: Role, d: Declared, ops: seq<Op>): seq<string> {
    if ops == [] then []
    else
      var last := ops[|ops| - 1];
      RequestKeys(role, d, ops[..|ops| - 1]) + (if MaySend(role, d, last) then [d.K().Request(last.name)] else [])
  }

  function ControlKeys(k: RoutingKeys, verbs: seq<string>): seq<string> {
    if verbs == [] then [] else ControlKeys(k, verbs[..|verbs| - 1]) + [k.Control(verbs[|verbs| - 1])]
  }

  function ChannelKeys(d: Declared): seq<string> {
    (if d.cap.stream.Some? then [d.K().publish] else []) + (if d.cap.update.Some? then [d.K().update] else []) + [d.K().state]
  }

  function WithoutFirst(keys: seq<string>, key: string): seq<string> {
    if keys == [] then [] else if keys[0] == key then keys[1..] else [keys[0]] + WithoutFirst(keys[1..], key)
  }

  /** A viewer does not get the masks: their publish key is taken out again, which fails if it is not there. */
  function ReadKeys(role: Role, d: Declared, before: seq<string>): Result<seq<string>, PolicyError> {
    var read := before + ChannelKeys(d);
    if role == Viewer && d.Is("detection", "detection") then
      if d.K().publish in read then Ok(WithoutFirst(read, d.K().publish)) else Err(NotInList)
    else Ok(read)
  }

  function WriteKeys(role: Role, d: Declared): seq<string> {
    RequestKeys(role, d, d.cap.ops) + ControlKeys(d.K(), Verbs(role))
  }

  function ListsAt(m: map<string, Lists>, exchange: string): Lists {
    if exchange in m then m[exchange] else NO_KEYS
  }

  /** The lists after these capabilities. */
  function Collected(role: Role, ds: seq<Declared>): Result<map<string, Lists>, PolicyError> {
    if ds == [] then Ok(map[])
    else
      match Collected(role, ds[..|ds| - 1])
      case Err(e) => Err(e)
      case Ok(m) => WithOne(role, m, ds[|ds| - 1])
  }

  function WithOne(role: Role, m: map<string, Lists>, d: Declared): Result<map<string, Lists>, PolicyError> {
    match ReadKeys(role, d, ListsAt(m, d.exchange).read)
    case Err(e) => Err(e)
    case Ok(read) => Ok(m[d.exchange := Lists(ListsAt(m, d.exchange).write + WriteKeys(role, d), read)])
  }

  function Expressions(l: Lists): Permission {
    Permission(Alternation(l.write), Alternation(l.read))
  }

  function Permissions(m: map<string, Lists>): map<string, Permission> {
    map x | x in m :: Expressions(m[x])
  }

  // ----- the loops that build them -----------------------------------------------------------------

  method FirstRemoved(keys: seq<string>, key: string) returns (r: Result<seq<string>, PolicyError>)
    ensures r == if key in keys then Ok(WithoutFirst(keys, key)) else Err(NotInList)
  {
    var i := 0;
    while i < |keys| && keys[i] != key
      invariant i <= |keys| && key !in keys[..i]
      invariant WithoutFirst(keys, key) == keys[..i] + WithoutFirst(keys[i..], key)
    {
      assert keys[i..][1..] == keys[i + 1..];
      i := i + 1;
    }
    if i == |keys| {
      assert keys[..i] == keys;
      return Err(NotInList);
    }
    assert keys[i] == key && keys[i..][1..] == keys[i + 1..];
    r := Ok(keys[..i] + keys[i + 1..]);
  }

  /** One pass of the loop over the capabilities, with its loops over ops and verbs. */
  method AddCapability(role: Role, m: map<string, Lists>, d: Declared) returns (r: Result<map<string, Lists>, PolicyError>)
    ensures r == WithOne(role, m, d)
  {
    var keys := d.K();
    var lists := if d.exchange in m then m[d.exchange] else NO_KEYS;
    var read := lists.read;
    if d.cap.stream.Some? { read := read + [keys.publish]; }
    if d.cap.update.Some? { read := read + [keys.update]; }
    read := read + [keys.state];
    assert read == lists.read + ChannelKeys(d);
    if role == Viewer && d.equipment == "detection" && d.cap.name == "detection" {
      var removed := FirstRemoved(read, keys.publish);
      if removed.Err? {
        return Err(removed.error);
      }
      read := removed.value;
    }
    var requests := AddRequests(role, d, lists.write);
    var write := AddControls(keys, Verbs(role), requests);
    assert write == lists.write + WriteKeys(role, d);
    r := Ok(m[d.exchange := Lists(write, read)]);
  }

  method AddRequests(role: Role, d: Declared, before: seq<string>) returns (write: seq<string>)
    ensures write == before + RequestKeys(role, d, d.cap.ops)
  {
    write := before;
    var i := 0;
    while i < |d.cap.ops|
      invariant i <= |d.cap.ops|
      invariant write == before + RequestKeys(role, d, d.cap.ops[..i])
    {
      var op := d.cap.ops[i];
      assert d.cap.ops[..i + 1][..i] == d.cap.ops[..i];
      if MaySend(role, d, op) {
        write := write + [d.K().Request(op.name)];
      }
      i := i + 1;
    }
    assert d.cap.ops[..i] == d.cap.ops;
  }

  method AddControls(keys: RoutingKeys, verbs: seq<string>, before: seq<string>) returns (write: seq<string>)
    ensures write == before + ControlKeys(keys, verbs)
  {
    write := before;
    var i := 0;
    while i < |verbs|
      invariant i <= |verbs|
      invariant write == before + ControlKeys(keys, verbs[..i])
    {
      assert verbs[..i + 1][..i] == verbs[..i];
      write := write + [keys.Control(verbs[i])];
      i := i + 1;
    }
    assert verbs[..i] == verbs;
  }

  lemma CollectedNext(role: Role, ds: seq<Declared>, i: nat, m: map<string, Lists>)
    requires i < |ds| && Collected(role, ds[..i]) == Ok(m)
    ensures Collected(role, ds[..i + 1]) == WithOne(role, m, ds[i])
  {
    var prefix := ds[..i + 1];
    assert prefix[..|prefix| - 1] == ds[..i] && prefix[|prefix| - 1] == ds[i];
  }

  /** `viewer_permissions` and `operator_permissions`. */
  method RolePermissions(role: Role, registry: seq<EquipmentContract>) returns (r: Result<map<string, Permission>, PolicyError>)
    ensures r == DerivedPermissions(role, registry)
  {
    var ds := AllCapabilities(registry);
    var m: map<string, Lists> := map[];
    var i := 0;
    while i < |ds|
      invariant i <= |ds|
      invariant Collected(role, ds[..i]) == Ok(m)
    {
      CollectedNext(role, ds, i, m);
      var added := AddCapability(role, m, ds[i]);
      if added.Err? {
        FailureStays(role, ds, i + 1);
        return Err(added.error);
      }
      m := added.value;
      i := i + 1;
    }
    assert ds[..i] == ds;
    r := Ok(Permissions(m));
  }

  lemma {:induction false} FailureStays(role: Role, ds: seq<Declared>, n: nat)
    requires n <= |ds| && Collected(role, ds[..n]).Err?
    ensures Collected(role, ds) == Collected(role, ds[..n])
  {
    if n < |ds| {
      assert ds[..|ds| - 1][..n] == ds[..n];
      FailureStays(role, ds[..|ds| - 1], n);
    } else {
      assert ds[..n] == ds;
    }
  }

  // ----- the enforcement predicates --------------------------------------------------------------

  function Exchanges(registry: seq<EquipmentContract>): set<string> {
    set c | c in registry :: c.exchange
  }

  /** Nodes and administrators: everything on every exchange. */
  function Everything(registry: seq<EquipmentContract>): map<string, Permission> {
    map x | x in Exchanges(registry) :: Permission(ANYTHING, ANYTHING)
  }

  function DerivedPermissions(role: Role, registry: seq<EquipmentContract>): Result<map<string, Permission>, PolicyError> {
    match Collected(role, AllCapabilities(registry))
    case Ok(m) => Ok(Permissions(m))
    case Err(e) => Err(e)
  }

  function PermissionsOf(registry: seq<EquipmentContract>, role: string): Result<map<string, Permission>, PolicyError> {
    if role == "viewer" then DerivedPermissions(Viewer, registry)
    else if role == "operator" then DerivedPermissions(Operator, registry)
    else if role == "node" || role == "admin" then Ok(Everything(registry))
    else Err(UnknownRole)
  }

  /** Whether the role may publish with this key on this exchange. */
  function Permits(registry: seq<EquipmentContract>, role: string, exchange: string, key: string): Result<bool, PolicyError> {
    match PermissionsOf(registry, role)
    case Err(e) => Err(e)
    case Ok(m) => Ok(exchange in m && TextMatches(m[exchange].write, key))
  }

  /** Whether the role may subscribe to this key on this exchange. */
  function PermitsRead(registry: seq<EquipmentContract>, role: string, exchange: string, key: string): Result<bool, PolicyError> {
    match PermissionsOf(registry, role)
    case Err(e) => Err(e)
    case Ok(m) => Ok(exchange in m && TextMatches(m[exchange].read, key))
  }
}
