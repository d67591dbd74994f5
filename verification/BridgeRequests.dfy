/** Which requests and subscriptions of a browser reach the bus, in terms of the capability and the operation or stream
    they name (src/lumi/api/bridge.py, lines 201-307, with src/lumi/contracts/policy.py). */
module BridgeRequests {
  import opened Common
  import opened Contracts
  import opened Policy
  import opened PolicyRules
  import opened BridgeSession

  /** Names are plain, and no two capabilities have the same. */
  ghost predicate AreDistinct(ds: seq<Declared>) {
    && (forall i :: 0 <= i < |ds| ==> IsPlainName(ds[i].equipment) && IsPlainName(ds[i].cap.name))
    && (forall i, j :: 0 <= i < j < |ds| ==> ds[i].equipment != ds[j].equipment || ds[i].cap.name != ds[j].cap.name)
  }

  // ----- keys of different capabilities --------------------------------------------------------

  lemma KeyStarts(e: string, c: string, rest: string)
    requires IsDotFree(e) && IsDotFree(c)
    ensures Words(e + "." + c + "." + rest) == [e, c] + Words(rest)
  {
    assert e + "." + c + "." + rest == e + "." + (c + "." + rest);
    WordsOfJoined(e, c + "." + rest);
    WordsOfJoined(c, rest);
  }

  lemma RequestWords(e: string, c: string, op: string)
    requires IsDotFree(e) && IsDotFree(c)
    ensures Words(Keys(e, c).Request(op)) == [e, c, "req"] + Words(op)
  {
    assert Keys(e, c).Request(op) == e + "." + c + "." + ("req" + "." + op);
    KeyStarts(e, c, "req" + "." + op);
    WordsOfJoined("req", op);
  }

  lemma ControlWords(e: string, c: string, verb: string)
    requires IsDotFree(e) && IsDotFree(c)
    ensures Words(Keys(e, c).Control(verb)) == [e, c, "ctrl"] + Words(verb)
  {
    assert Keys(e, c).Control(verb) == e + "." + c + "." + ("ctrl" + "." + verb);
    KeyStarts(e, c, "ctrl" + "." + verb);
    WordsOfJoined("ctrl", verb);
  }

  lemma FirstThree(a: seq<string>, b: seq<string>, x: seq<string>, y: seq<string>)
    requires |a| == |b| == 3 && a + x == b + y
    ensures a == b
  {
    assert (a + x)[..3] == a && (b + y)[..3] == b;
  }

  predicate HasPlainNames(d: Declared) {
    IsPlainName(d.equipment) && IsPlainName(d.cap.name)
  }

  predicate SameNames(d: Declared, d': Declared) {
    d.equipment == d'.equipment && d.cap.name == d'.cap.name
  }

  lemma RequestKeysDiffer(d: Declared, op: string, d': Declared, op': string)
    requires HasPlainNames(d) && HasPlainNames(d') && d.K().Request(op) == d'.K().Request(op')
    ensures SameNames(d, d') && op == op'
  {
    RequestWords(d.equipment, d.cap.name, op);
    RequestWords(d'.equipment, d'.cap.name, op');
    var a, b := [d.equipment, d.cap.name, "req"], [d'.equipment, d'.cap.name, "req"];
    FirstThree(a, b, Words(op), Words(op'));
    assert a[0] == b[0] && a[1] == b[1];
    AfterPrefix(d.K().requestPrefix + ".", op, op');
  }

  lemma ControlKeysDiffer(d: Declared, verb: string, d': Declared, verb': string)
    requires HasPlainNames(d) && HasPlainNames(d') && d.K().Control(verb) == d'.K().Control(verb')
    ensures SameNames(d, d') && verb == verb'
  {
    ControlWords(d.equipment, d.cap.name, verb);
    ControlWords(d'.equipment, d'.cap.name, verb');
    var a, b := [d.equipment, d.cap.name, "ctrl"], [d'.equipment, d'.cap.name, "ctrl"];
    FirstThree(a, b, Words(verb), Words(verb'));
    assert a[0] == b[0] && a[1] == b[1];
    AfterPrefix(d.K().controlPrefix + ".", verb, verb');
  }

  lemma AfterPrefix(prefix: string, a: string, b: string)
    requires prefix + a == prefix + b
    ensures a == b
  {
    assert (prefix + a)[|prefix|..] == a && (prefix + b)[|prefix|..] == b;
  }

  lemma RequestIsNoControl(d: Declared, op: string, d': Declared, verb: string)
    requires HasPlainNames(d) && HasPlainNames(d')
    ensures d.K().Request(op) != d'.K().Control(verb)
  {
    RequestWords(d.equipment, d.cap.name, op);
    ControlWords(d'.equipment, d'.cap.name, verb);
    var a, b := [d.equipment, d.cap.name, "req"], [d'.equipment, d'.cap.name, "ctrl"];
    assert a[2] != b[2];
    if d.K().Request(op) == d'.K().Control(verb) {
      FirstThree(a, b, Words(op), Words(verb));
    }
  }

  // ----- the rule, capability by capability --------------------------------------------------------

  ghost predicate Declares(role: Role, d: Declared, op: string) {
    exists o :: o in d.cap.ops && MaySend(role, d, o) && o.name == op
  }

  lemma DistinctAreSame(ds: seq<Declared>, i: nat, j: nat)
    requires AreDistinct(ds) && i < |ds| && j < |ds| && SameNames(ds[i], ds[j])
    ensures i == j
  {
  }

  /** The rule lets a request key of a capability pass exactly when that capability declares an op of this name which
      the role may send. */
  lemma RequestRule(role: Role, ds: seq<Declared>, i: nat, op: string)
    requires AreDistinct(ds) && i < |ds|
    ensures MayWrite(role, ds, ds[i].exchange, ds[i].K().Request(op)) <==> Declares(role, ds[i], op)
  {
    var key := ds[i].K().Request(op);
    if MayWrite(role, ds, ds[i].exchange, key) {
      var j :| 0 <= j < |ds| && ds[j].exchange == ds[i].exchange && CapabilityWrites(role, ds[j], key);
      if verb :| verb in Verbs(role) && key == ds[j].K().Control(verb) {
        RequestIsNoControl(ds[i], op, ds[j], verb);
      } else {
        var o :| o in ds[j].cap.ops && MaySend(role, ds[j], o) && key == ds[j].K().Request(o.name);
        RequestKeysDiffer(ds[i], op, ds[j], o.name);
        DistinctAreSame(ds, i, j);
      }
    }
    if Declares(role, ds[i], op) {
      var o :| o in ds[i].cap.ops && MaySend(role, ds[i], o) && o.name == op;
      assert CapabilityWrites(role, ds[i], key);
    }
  }

  lemma ControlRule(role: Role, ds: seq<Declared>, i: nat, verb: string)
    requires AreDistinct(ds) && i < |ds|
    ensures MayWrite(role, ds, ds[i].exchange, ds[i].K().Control(verb)) <==> verb in Verbs(role)
  {
    var key := ds[i].K().Control(verb);
    if MayWrite(role, ds, ds[i].exchange, key) {
      var j :| 0 <= j < |ds| && ds[j].exchange == ds[i].exchange && CapabilityWrites(role, ds[j], key);
      if o :| o in ds[j].cap.ops && MaySend(role, ds[j], o) && key == ds[j].K().Request(o.name) {
        RequestIsNoControl(ds[j], o.name, ds[i], verb);
      } else {
        var v :| v in Verbs(role) && key == ds[j].K().Control(v);
        ControlKeysDiffer(ds[i], verb, ds[j], v);
      }
    }
    if verb in Verbs(role) {
      assert CapabilityWrites(role, ds[i], key);
    }
  }

  lemma {:induction false} ValidIsDistinct(registry: seq<EquipmentContract>)
    requires RegistryIsValid(registry)
    ensures AreDistinct(AllCapabilities(registry))
  {
    var ds := AllCapabilities(registry);
    forall i | 0 <= i < |ds| ensures IsPlainName(ds[i].equipment) && IsPlainName(ds[i].cap.name) {
      var k, j := DeclaredByOne(registry, i);
    }
    if registry != [] {
      var before, last := registry[..|registry| - 1], registry[|registry| - 1];
      ValidIsDistinct(before);
      var n := |AllCapabilities(before)|;
      forall i, j | 0 <= i < j < |ds| ensures ds[i].equipment != ds[j].equipment || ds[i].cap.name != ds[j].cap.name {
        if n <= j {
          CapabilitiesOfOne(last, |last.capabilities|, j - n);
          if n <= i {
            CapabilitiesOfOne(last, |last.capabilities|, i - n);
          } else {
            var k, m := DeclaredByOne(before, i);
            assert registry[k] == before[k];
          }
        }
      }
    }
  }

  // ----- the requests ----------------------------------------------------------------------------------

  lemma {:induction false} ResolvedIsDeclared(ds: seq<Declared>, target: string) returns (i: nat)
    requires Resolve(ds, target).Some?
    ensures i < |ds| && ds[i] == Resolve(ds, target).value && ds[i].equipment + "." + ds[i].cap.name == target
  {
    i := |ds| - 1;
    if ds[i].equipment + "." + ds[i].cap.name != target {
      i := ResolvedIsDeclared(ds[..i], target);
    }
  }

  /** Dropping a newline from the end of a key drops it from the op. */
  lemma KeyWithoutNewline(prefix: string, op: string)
    requires prefix != "" && prefix[|prefix| - 1] == '.'
    ensures var key := prefix + op;
            if op != "" then key[|key| - 1] == op[|op| - 1] && key[..|key| - 1] == prefix + op[..|op| - 1] else key[|key| - 1] == '.'
  {
  }

  function RoleName(role: Role): string {
    if role == Viewer then "viewer" else "operator"
  }

  lemma PermitsByRule(registry: seq<EquipmentContract>, role: Role, exchange: string, key: string)
    requires PermissionsOf(registry, RoleName(role)).Ok?
    ensures Permits(registry, RoleName(role), exchange, key) == Ok(WritesUpToNewline(role, AllCapabilities(registry), exchange, key))
  {
    PermitsExactly(registry, RoleName(role), exchange, key);
  }

  predicate EndsInNewline(s: string) {
    s != "" && s[|s| - 1] == '\n'
  }

  /** The capability declares the op, or the op without the newline that ends it. */
  ghost predicate Accepts(role: Role, d: Declared, op: string) {
    Declares(role, d, op) || (EndsInNewline(op) && Declares(role, d, op[..|op| - 1]))
  }

  predicate AcceptsVerb(role: Role, verb: string) {
    verb in Verbs(role) || (EndsInNewline(verb) && verb[..|verb| - 1] in Verbs(role))
  }

  lemma RequestAccepted(role: Role, ds: seq<Declared>, i: nat, op: string)
    requires AreDistinct(ds) && i < |ds|
    ensures WritesUpToNewline(role, ds, ds[i].exchange, ds[i].K().Request(op)) <==> Accepts(role, ds[i], op)
  {
    KeyWithoutNewline(ds[i].K().requestPrefix + ".", op);
    RequestRule(role, ds, i, op);
    if EndsInNewline(op) { RequestRule(role, ds, i, op[..|op| - 1]); }
  }

  lemma ControlAccepted(role: Role, ds: seq<Declared>, i: nat, verb: string)
    requires AreDistinct(ds) && i < |ds|
    ensures WritesUpToNewline(role, ds, ds[i].exchange, ds[i].K().Control(verb)) <==> AcceptsVerb(role, verb)
  {
    KeyWithoutNewline(ds[i].K().controlPrefix + ".", verb);
    ControlRule(role, ds, i, verb);
    if EndsInNewline(verb) { ControlRule(role, ds, i, verb[..|verb| - 1]); }
  }

  lemma RequestPermitted(registry: seq<EquipmentContract>, role: Role, i: nat, op: string)
    requires RegistryIsValid(registry) && PermissionsOf(registry, RoleName(role)).Ok? && i < |AllCapabilities(registry)|
    ensures var d := AllCapabilities(registry)[i];
            Permits(registry, RoleName(role), d.exchange, d.K().Request(op)) == Ok(Accepts(role, d, op))
  {
    var d := AllCapabilities(registry)[i];
    ValidIsDistinct(registry);
    PermitsByRule(registry, role, d.exchange, d.K().Request(op));
    RequestAccepted(role, AllCapabilities(registry), i, op);
  }

  lemma ControlPermitted(registry: seq<EquipmentContract>, role: Role, i: nat, verb: string)
    requires RegistryIsValid(registry) && PermissionsOf(registry, RoleName(role)).Ok? && i < |AllCapabilities(registry)|
    ensures var d := AllCapabilities(registry)[i];
            Permits(registry, RoleName(role), d.exchange, d.K().Control(verb)) == Ok(AcceptsVerb(role, verb))
  {
    var d := AllCapabilities(registry)[i];
    ValidIsDistinct(registry);
    PermitsByRule(registry, role, d.exchange, d.K().Control(verb));
    ControlAccepted(role, AllCapabilities(registry), i, verb);
  }

  // ----- past the permission check ----------------------------------------------------------------------

  predicate PassesGate(v: RequestVerdict) {
    v.NoSuchOp? || v.Unreadable? || v.Acknowledged? || v.Forwarded?
  }

  function KeyOf(d: Declared, op: string, control: bool): string {
    if control then d.K().Control(op) else d.K().Request(op)
  }

  /** What gets past is dispatched. */
  lemma PermittedPasses(registry: seq<EquipmentContract>, role: string, target: string, op: string, control: bool, readable: bool,
                        size: nat, limit: nat)
    ensures var found := Resolve(AllCapabilities(registry), target);
            PassesGate(DecideRequest(registry, role, target, op, control, readable, size, limit)) <==>
            && size <= limit && found.Some?
            && Permits(registry, role, found.value.exchange, KeyOf(found.value, op, control)) == Ok(true)
    ensures var v := DecideRequest(registry, role, target, op, control, readable, size, limit);
            PassesGate(v) ==> v == Dispatch(Resolve(AllCapabilities(registry), target).value.cap, op, control, readable)
  {
  }

  /** For any registry of plain, different names, a viewer's or operator's request gets past the permission check
      exactly when its payload fits, its target is declared, and that very capability declares the op (up to a final
      newline) and the role may send it: a viewer's op only reads, an operator's may also change things, except on the
      supervisor. */
  lemma RequestsPassGateExactly(registry: seq<EquipmentContract>, role: Role, target: string, op: string, readable: bool,
                                size: nat, limit: nat)
    requires RegistryIsValid(registry) && PermissionsOf(registry, RoleName(role)).Ok?
    ensures var found := Resolve(AllCapabilities(registry), target);
            PassesGate(DecideRequest(registry, RoleName(role), target, op, false, readable, size, limit)) <==>
            size <= limit && found.Some? && Accepts(role, found.value, op)
  {
    var ds := AllCapabilities(registry);
    PermittedPasses(registry, RoleName(role), target, op, false, readable, size, limit);
    if Resolve(ds, target).Some? {
      var i := ResolvedIsDeclared(ds, target);
      RequestPermitted(registry, role, i, op);
    }
  }

  /** A control verb likewise: only the role's verbs pass. */
  lemma ControlsPassGateExactly(registry: seq<EquipmentContract>, role: Role, target: string, verb: string, readable: bool,
                                size: nat, limit: nat)
    requires RegistryIsValid(registry) && PermissionsOf(registry, RoleName(role)).Ok?
    ensures PassesGate(DecideRequest(registry, RoleName(role), target, verb, true, readable, size, limit)) <==>
            size <= limit && Resolve(AllCapabilities(registry), target).Some? && AcceptsVerb(role, verb)
  {
    var ds := AllCapabilities(registry);
    PermittedPasses(registry, RoleName(role), target, verb, true, readable, size, limit);
    if Resolve(ds, target).Some? {
      var i := ResolvedIsDeclared(ds, target);
      ControlPermitted(registry, role, i, verb);
    }
  }

  // ----- to the bus ---------------------------------------------------------------------------------------

  /** An op declared with a final newline takes its permission from the op without it. */
  ghost predicate BorrowsPermission(role: Role, d: Declared, op: string) {
    HasOp(d.cap, op) && EndsInNewline(op) && Declares(role, d, op[..|op| - 1])
  }

  lemma HasWhatItDeclares(role: Role, d: Declared, op: string)
    requires Declares(role, d, op)
    ensures HasOp(d.cap, op)
  {
    var o :| o in d.cap.ops && MaySend(role, d, o) && o.name == op;
    var i :| 0 <= i < |d.cap.ops| && d.cap.ops[i] == o;
  }

  /** For any registry of plain, different names, a viewer's or operator's request is forwarded exactly when its
      payload fits, its target is declared, its body can be read, and that very capability declares the op and the role
      may send it, or declares it with a newline at its end and the role may send the op without. */
  lemma RequestsForwardedExactly(registry: seq<EquipmentContract>, role: Role, target: string, op: string, readable: bool,
                                 size: nat, limit: nat)
    requires RegistryIsValid(registry) && PermissionsOf(registry, RoleName(role)).Ok?
    ensures var found := Resolve(AllCapabilities(registry), target);
            DecideRequest(registry, RoleName(role), target, op, false, readable, size, limit).Forwarded? <==>
            && size <= limit && readable && found.Some?
            && (Declares(role, found.value, op) || BorrowsPermission(role, found.value, op))
  {
    RequestsPassGateExactly(registry, role, target, op, readable, size, limit);
    PermittedPasses(registry, RoleName(role), target, op, false, readable, size, limit);
    var found := Resolve(AllCapabilities(registry), target);
    if found.Some? && Declares(role, found.value, op) {
      HasWhatItDeclares(role, found.value, op);
    }
  }

  ghost predicate NoOpEndsInNewline(cap: Capability) {
    forall i :: 0 <= i < |cap.ops| ==> !EndsInNewline(cap.ops[i].name)
  }

  /** Which ops a role may send: a viewer those that only read, an operator any but on the supervisor, where it too
      may only read. */
  predicate IsFor(role: Role, d: Declared, op: string) {
    op in READ_ONLY_OPS || (role == Operator && (d.equipment != "system" || d.cap.name != "supervisor"))
  }

  lemma DeclaresExactly(role: Role, d: Declared, op: string)
    ensures Declares(role, d, op) <==> HasOp(d.cap, op) && IsFor(role, d, op)
  {
    if HasOp(d.cap, op) {
      var i :| 0 <= i < |d.cap.ops| && d.cap.ops[i].name == op;
      assert d.cap.ops[i] in d.cap.ops;
    }
    if Declares(role, d, op) { HasWhatItDeclares(role, d, op); }
  }

  /** So, unless a name ends in a newline, exactly when the capability has the op and it is one for the role. */
  lemma PlainRequestsForwardedExactly(registry: seq<EquipmentContract>, role: Role, target: string, op: string, readable: bool,
                                      size: nat, limit: nat)
    requires RegistryIsValid(registry) && PermissionsOf(registry, RoleName(role)).Ok?
    requires var found := Resolve(AllCapabilities(registry), target); found.Some? ==> NoOpEndsInNewline(found.value.cap)
    ensures var found := Resolve(AllCapabilities(registry), target);
            DecideRequest(registry, RoleName(role), target, op, false, readable, size, limit).Forwarded? <==>
            size <= limit && readable && found.Some? && HasOp(found.value.cap, op) && IsFor(role, found.value, op)
  {
    var found := Resolve(AllCapabilities(registry), target);
    RequestsForwardedExactly(registry, role, target, op, readable, size, limit);
    if found.Some? { DeclaresExactly(role, found.value, op); }
  }

  /** The newline the permission check lets through is stopped at the lookup: a permitted op's name with a newline
      after it is answered with an error and not forwarded, unless it is declared like that. */
  lemma NewlineStopsAtLookup(registry: seq<EquipmentContract>, role: Role, target: string, op: string, readable: bool,
                             size: nat, limit: nat)
    requires RegistryIsValid(registry) && PermissionsOf(registry, RoleName(role)).Ok? && size <= limit
    requires var found := Resolve(AllCapabilities(registry), target);
             found.Some? && Declares(role, found.value, op) && !HasOp(found.value.cap, op + "\n")
    ensures DecideRequest(registry, RoleName(role), target, op + "\n", false, readable, size, limit) == NoSuchOp
  {
    assert (op + "\n")[..|op|] == op;
    RequestsPassGateExactly(registry, role, target, op + "\n", readable, size, limit);
    PermittedPasses(registry, RoleName(role), target, op + "\n", false, readable, size, limit);
  }

  lemma BusVerbsArePermitted(role: Role, verb: string)
    requires verb in BUS_VERBS
    ensures verb in Verbs(role) && !EndsInNewline(verb)
  {
    assert Verbs(role)[0] == "start" && Verbs(role)[1] == "stop" && Verbs(role)[2] == "state";
  }

  /** A control verb is forwarded exactly when the bridge has a call for it, which every role may make. */
  lemma ControlsForwardedExactly(registry: seq<EquipmentContract>, role: Role, target: string, verb: string, readable: bool,
                                 size: nat, limit: nat)
    requires RegistryIsValid(registry) && PermissionsOf(registry, RoleName(role)).Ok?
    ensures DecideRequest(registry, RoleName(role), target, verb, true, readable, size, limit).Forwarded? <==>
            && size <= limit && Resolve(AllCapabilities(registry), target).Some?
            && verb in BUS_VERBS && verb in Verbs(role)
  {
    ControlsPassGateExactly(registry, role, target, verb, readable, size, limit);
    PermittedPasses(registry, RoleName(role), target, verb, true, readable, size, limit);
    if verb in BUS_VERBS { BusVerbsArePermitted(role, verb); }
  }

  /** The other verbs that pass are acknowledged without a call: an operator's `config`, and each verb of the role with
      a newline after it. */
  lemma OthersAreAcknowledged(registry: seq<EquipmentContract>, role: Role, target: string, verb: string, readable: bool,
                              size: nat, limit: nat)
    requires RegistryIsValid(registry) && PermissionsOf(registry, RoleName(role)).Ok?
    ensures DecideRequest(registry, RoleName(role), target, verb, true, readable, size, limit).Acknowledged? <==>
            && size <= limit && Resolve(AllCapabilities(registry), target).Some?
            && ((role == Operator && verb == "config") || (EndsInNewline(verb) && verb[..|verb| - 1] in Verbs(role)))
  {
    ControlsPassGateExactly(registry, role, target, verb, readable, size, limit);
    PermittedPasses(registry, RoleName(role), target, verb, true, readable, size, limit);
    if verb in BUS_VERBS { BusVerbsArePermitted(role, verb); }
    VerbsAre(role, verb);
  }

  lemma VerbsAre(role: Role, verb: string)
    ensures verb in Verbs(role) <==> verb in BUS_VERBS || (role == Operator && verb == "config")
  {
    if role == Operator { assert Verbs(role)[3] == "config"; }
    if verb in BUS_VERBS { BusVerbsArePermitted(role, verb); }
  }

  // ----- administrators -------------------------------------------------------------------------------------

  /** In any registry whatever an administrator's request is dispatched as soon as it fits and its target is declared:
      it is forwarded exactly when the capability has the op and the body can be read, a control verb exactly when the
      bridge has a call for it. */
  lemma AdminsForwardedExactly(registry: seq<EquipmentContract>, target: string, op: string, control: bool, readable: bool,
                               size: nat, limit: nat)
    ensures var found := Resolve(AllCapabilities(registry), target);
            DecideRequest(registry, "admin", target, op, control, readable, size, limit).Forwarded? <==>
            && size <= limit && found.Some?
            && if control then op in BUS_VERBS else HasOp(found.value.cap, op) && readable
  {
    var ds := AllCapabilities(registry);
    if Resolve(ds, target).Some? {
      var i := ResolvedIsDeclared(ds, target);
      var d := ds[i];
      PermittedPasses(registry, "admin", target, op, control, readable, size, limit);
      DeclaredOnExchange(registry, d.exchange);
      PermitsExactly(registry, "admin", d.exchange, KeyOf(d, op, control));
    }
  }

  // ----- subscriptions ----------------------------------------------------------------------------------------

  /** The capability a target names: of those declared under it, the last. */
  predicate IsTarget(ds: seq<Declared>, target: string, i: nat) {
    && i < |ds| && ds[i].equipment + "." + ds[i].cap.name == target
    && forall j :: i < j < |ds| ==> ds[j].equipment + "." + ds[j].cap.name != target
  }

  lemma {:induction false} ResolvesExactly(ds: seq<Declared>, target: string)
    ensures Resolve(ds, target).None? <==> forall i: nat :: !IsTarget(ds, target, i)
    ensures forall i: nat :: IsTarget(ds, target, i) ==> Resolve(ds, target) == Some(ds[i])
  {
    if ds != [] {
      var before, last := ds[..|ds| - 1], ds[|ds| - 1];
      ResolvesExactly(before, target);
      if last.equipment + "." + last.cap.name == target {
        assert IsTarget(ds, target, |ds| - 1);
      } else {
        assert forall i: nat :: IsTarget(ds, target, i) <==> IsTarget(before, target, i);
      }
    }
  }

  /** The channel a name reaches: the stream if it is the stream's name, otherwise the update channel. */
  predicate Reaches(cap: Capability, stream: string, c: Channel) {
    match c
    case StreamChannel => cap.stream.Some? && cap.stream.value.name == stream
    case UpdateChannel => cap.update.Some? && !(cap.stream.Some? && cap.stream.value.name == stream)
  }

  /** The role's rule lets it read the key of this channel. */
  ghost predicate MayFollow(registry: seq<EquipmentContract>, role: string, d: Declared, c: Channel) {
    RoleMayRead(registry, role, d.exchange, match c case StreamChannel => d.K().publish case UpdateChannel => d.K().update)
  }

  lemma ChannelExactly(cap: Capability, stream: string, c: Channel)
    ensures ChannelFor(cap, stream) == Some(c) <==> Reaches(cap, stream, c)
    ensures ChannelFor(cap, stream) == None <==> !Reaches(cap, stream, StreamChannel) && !Reaches(cap, stream, UpdateChannel)
  {
  }

  lemma DecidedOnChannel(registry: seq<EquipmentContract>, role: string, target: string, stream: string, i: nat, c: Channel)
    requires IsTarget(AllCapabilities(registry), target, i) && Reaches(AllCapabilities(registry)[i].cap, stream, c)
    ensures Decide(registry, role, target, stream) ==
            if PermissionsOf(registry, role).Err? then Raised
            else if MayFollow(registry, role, AllCapabilities(registry)[i], c) then Go(c) else Forbidden
  {
    var d := AllCapabilities(registry)[i];
    ResolvesExactly(AllCapabilities(registry), target);
    ChannelExactly(d.cap, stream, c);
    if PermissionsOf(registry, role).Ok? { PermitsReadExactly(registry, role, d.exchange, ChannelKey(d, c)); }
  }

  /** For every registry, role, target and name: an undeclared target and a name that reaches no channel are refused as
      such; otherwise a subscription raises when the role's permissions do not build, goes to the channel the name
      reaches when the role's rule lets it read that channel's key, and is forbidden when it does not. */
  lemma SubscriptionsExactly(registry: seq<EquipmentContract>, role: string, target: string, stream: string)
    ensures var ds, verdict := AllCapabilities(registry), Decide(registry, role, target, stream);
            && (verdict == UnknownTarget <==> forall i: nat :: !IsTarget(ds, target, i))
            && forall i: nat :: IsTarget(ds, target, i) ==>
                 && (verdict == NoStream <==> !Reaches(ds[i].cap, stream, StreamChannel) && !Reaches(ds[i].cap, stream, UpdateChannel))
                 && forall c :: Reaches(ds[i].cap, stream, c) ==>
                      verdict == if PermissionsOf(registry, role).Err? then Raised
                                 else if MayFollow(registry, role, ds[i], c) then Go(c) else Forbidden
  {
    var ds := AllCapabilities(registry);
    ResolvesExactly(ds, target);
    forall i: nat | IsTarget(ds, target, i)
      ensures Decide(registry, role, target, stream) == NoStream <==>
              !Reaches(ds[i].cap, stream, StreamChannel) && !Reaches(ds[i].cap, stream, UpdateChannel)
      ensures forall c :: Reaches(ds[i].cap, stream, c) ==>
                Decide(registry, role, target, stream) == if PermissionsOf(registry, role).Err? then Raised
                                                          else if MayFollow(registry, role, ds[i], c) then Go(c) else Forbidden
    {
      ChannelExactly(ds[i].cap, stream, StreamChannel);
      forall c | Reaches(ds[i].cap, stream, c)
        ensures Decide(registry, role, target, stream) == if PermissionsOf(registry, role).Err? then Raised
                                                          else if MayFollow(registry, role, ds[i], c) then Go(c) else Forbidden
      {
        DecidedOnChannel(registry, role, target, stream, i, c);
      }
    }
  }

  lemma NamesOfDetection(d: Declared)
    requires d.equipment + "." + d.cap.name == "detection" + "." + "detection"
    ensures d.K().publish == Keys("detection", "detection").publish
  {
  }

  /** In no registry does a viewer's subscription open the detection stream, under whatever name it is asked for. */
  lemma ViewersNeverGetMasks(registry: seq<EquipmentContract>, stream: string)
    ensures Decide(registry, "viewer", "detection" + "." + "detection", stream) != Go(StreamChannel)
  {
    var ds, target := AllCapabilities(registry), "detection" + "." + "detection";
    if Resolve(ds, target).Some? {
      var d := Resolve(ds, target).value;
      var i := ResolvedIsDeclared(ds, target);
      NamesOfDetection(d);
      MasksAreKeptFromViewers(registry, d.exchange);
    }
  }

  // ----- every answer a request can get -------------------------------------------------------------------------

  /** What a request is refused for is the first thing wrong with it: its size, its target, the role's permissions, the
      op, the body. */
  lemma RefusalsExactly(registry: seq<EquipmentContract>, role: string, target: string, op: string, control: bool, readable: bool,
                        size: nat, limit: nat)
    ensures var v, found := DecideRequest(registry, role, target, op, control, readable, size, limit), Resolve(AllCapabilities(registry), target);
            && (v == TooLarge <==> size > limit)
            && (v == UnknownRequest <==> size <= limit && found.None?)
            && (v == Crashed <==> size <= limit && found.Some? && PermissionsOf(registry, role).Err?)
            && (v == NotPermitted <==> size <= limit && found.Some? && PermissionsOf(registry, role).Ok?
                                       && !RoleMayWrite(registry, role, found.value.exchange, KeyOf(found.value, op, control)))
            && (v == NoSuchOp ==> !control && !HasOp(found.value.cap, op))
            && (v == Unreadable ==> !control && HasOp(found.value.cap, op) && !readable)
            && (v == Acknowledged ==> control && op !in BUS_VERBS)
  {
    var found := Resolve(AllCapabilities(registry), target);
    if found.Some? && PermissionsOf(registry, role).Ok? {
      PermitsExactly(registry, role, found.value.exchange, KeyOf(found.value, op, control));
    }
  }
}
