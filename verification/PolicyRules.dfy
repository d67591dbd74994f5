/** The rules the roles stand for, and that the permissions built from the registry are exactly these. */
module PolicyRules {
  import opened Common
  import opened Contracts
  import opened RegexText
  import opened Policy

  // ----- the rules ----------------------------------------------------------------------------

  /** The role may publish with this key because of this capability: an op it may send, or a verb. */
  ghost predicate CapabilityWrites(role: Role, d: Declared, key: string) {
    || (exists op :: op in d.cap.ops && MaySend(role, d, op) && key == d.K().Request(op.name))
    || (exists verb :: verb in Verbs(role) && key == d.K().Control(verb))
  }

  /** The key is one of the capability's channels, and not the masks kept from a viewer. */
  predicate CapabilityReads(role: Role, d: Declared, key: string) {
    && (key == d.K().state || (d.cap.stream.Some? && key == d.K().publish) || (d.cap.update.Some? && key == d.K().update))
    && !(role == Viewer && d.Is("detection", "detection") && key == d.K().publish)
  }

  ghost predicate MayWrite(role: Role, ds: seq<Declared>, exchange: string, key: string) {
    exists i :: 0 <= i < |ds| && ds[i].exchange == exchange && CapabilityWrites(role, ds[i], key)
  }

  ghost predicate MayRead(role: Role, ds: seq<Declared>, exchange: string, key: string) {
    exists i :: 0 <= i < |ds| && ds[i].exchange == exchange && CapabilityReads(role, ds[i], key)
  }

  // ----- write lists ------------------------------------------------------------------------------

  lemma {:induction false} RequestKeysExactly(role: Role, d: Declared, ops: seq<Op>, key: string)
    ensures key in RequestKeys(role, d, ops) <==> exists op :: op in ops && MaySend(role, d, op) && key == d.K().Request(op.name)
  {
    if ops != [] {
      var before, last := ops[..|ops| - 1], ops[|ops| - 1];
      RequestKeysExactly(role, d, before, key);
      assert ops == before + [last];
    }
  }

  lemma {:induction false} ControlKeysExactly(k: RoutingKeys, verbs: seq<string>, key: string)
    ensures key in ControlKeys(k, verbs) <==> exists verb :: verb in verbs && key == k.Control(verb)
  {
    if verbs != [] {
      var before, last := verbs[..|verbs| - 1], verbs[|verbs| - 1];
      ControlKeysExactly(k, before, key);
      assert verbs == before + [last];
    }
  }

  lemma WriteKeysExactly(role: Role, d: Declared, key: string)
    ensures key in WriteKeys(role, d) <==> CapabilityWrites(role, d, key)
  {
    RequestKeysExactly(role, d, d.cap.ops, key);
    ControlKeysExactly(d.K(), Verbs(role), key);
  }

  lemma MayWriteSplits(role: Role, before: seq<Declared>, last: Declared, exchange: string, key: string)
    ensures MayWrite(role, before + [last], exchange, key) <==>
            MayWrite(role, before, exchange, key) || (last.exchange == exchange && CapabilityWrites(role, last, key))
  {
    var ds := before + [last];
    if MayWrite(role, before, exchange, key) {
      var i :| 0 <= i < |before| && before[i].exchange == exchange && CapabilityWrites(role, before[i], key);
      assert ds[i] == before[i];
    }
    if last.exchange == exchange && CapabilityWrites(role, last, key) {
      assert ds[|before|] == last;
    }
  }

  /** What one more capability does to the lists of an exchange. */
  lemma ListsAfterOne(role: Role, before: seq<Declared>, last: Declared, exchange: string)
    requires Collected(role, before + [last]).Ok?
    ensures Collected(role, before).Ok?
    ensures var l, l' := ListsAt(Collected(role, before).value, exchange), ListsAt(Collected(role, before + [last]).value, exchange);
            if last.exchange == exchange then
              l'.write == l.write + WriteKeys(role, last) && ReadKeys(role, last, l.read) == Ok(l'.read)
            else l' == l
  {
    assert (before + [last])[..|before|] == before;
  }

  /** For every registry, the write list of an exchange holds exactly the keys of the rule. */
  lemma {:induction false} WriteListExactly(role: Role, ds: seq<Declared>, exchange: string, key: string)
    requires Collected(role, ds).Ok?
    ensures key in ListsAt(Collected(role, ds).value, exchange).write <==> MayWrite(role, ds, exchange, key)
  {
    if ds != [] {
      var before, last := ds[..|ds| - 1], ds[|ds| - 1];
      assert ds == before + [last];
      ListsAfterOne(role, before, last, exchange);
      WriteListExactly(role, before, exchange, key);
      WriteKeysExactly(role, last, key);
      MayWriteSplits(role, before, last, exchange, key);
    }
  }

  // ----- read lists --------------------------------------------------------------------------------

  function Base(d: Declared): string {
    d.equipment + "." + d.cap.name
  }

  /** A publish key ends differently from every state and update key. */
  lemma PublishEndsAlone(d: Declared, d': Declared)
    ensures d.K().publish != d'.K().state && d.K().publish != d'.K().update
  {
    var p, s, u := d.K().publish, d'.K().state, d'.K().update;
    assert p[|p| - 1] == 'b' && s[|s| - 1] == 'e' && u[|u| - 1] == 'e';
  }

  lemma SamePublishSameBase(d: Declared, d': Declared)
    requires d.K().publish == d'.K().publish
    ensures Base(d) == Base(d')
  {
    var p, p' := d.K().publish, d'.K().publish;
    assert p[..|p| - 4] == Base(d) && p'[..|p'| - 4] == Base(d');
  }

  /** A text with one dot splits at that dot only. */
  lemma OneDotSplitsOnce(a: string, b: string, e: string, c: string)
    requires IsDotFree(a) && IsDotFree(b) && e + "." + c == a + "." + b
    ensures e == a && c == b
  {
    var s := a + "." + b;
    forall i | 0 <= i < |s| && i != |a| ensures s[i] != '.' {
      assert s[i] == if i < |a| then a[i] else b[i - |a| - 1];
    }
    assert (e + "." + c)[|e|] == '.';
    assert s[..|a|] == a && (e + "." + c)[..|e|] == e;
    assert s[|a| + 1..] == b && (e + "." + c)[|e| + 1..] == c;
  }

  /** Only the detection capability itself publishes under the key of the masks. */
  lemma MaskKeyIsItsOwn(masks: Declared, d: Declared)
    requires masks.Is("detection", "detection") && d.K().publish == masks.K().publish
    ensures d.Is("detection", "detection")
  {
    SamePublishSameBase(d, masks);
    OneDotSplitsOnce("detection", "detection", d.equipment, d.cap.name);
  }

  lemma WithoutFirstOf(head: string, rest: seq<string>, key: string)
    ensures WithoutFirst([head] + rest, key) == if head == key then rest else [head] + WithoutFirst(rest, key)
  {
    assert ([head] + rest)[1..] == rest;
  }

  lemma {:induction false} WithoutFirstAt(before: seq<string>, key: string, after: seq<string>)
    requires key !in before
    ensures WithoutFirst(before + [key] + after, key) == before + after
  {
    if before == [] {
      assert before + [key] + after == [key] + after;
      WithoutFirstOf(key, after, key);
    } else {
      WithoutFirstAt(before[1..], key, after);
      HeadOut(before, key, after);
      WithoutFirstOf(before[0], before[1..] + [key] + after, key);
      assert before + after == [before[0]] + (before[1..] + after);
    }
  }

  lemma HeadOut(before: seq<string>, key: string, after: seq<string>)
    requires before != []
    ensures before + [key] + after == [before[0]] + (before[1..] + [key] + after)
  {
  }

  lemma ChannelKeysExactly(d: Declared, key: string)
    ensures key in ChannelKeys(d) <==>
            key == d.K().state || (d.cap.stream.Some? && key == d.K().publish) || (d.cap.update.Some? && key == d.K().update)
  {
  }

  predicate HoldsMasks(role: Role, d: Declared) {
    role == Viewer && d.Is("detection", "detection")
  }

  /** What one more capability adds to a read list; the masks' key is not in it yet. */
  lemma ReadKeysExactly(role: Role, d: Declared, before: seq<string>, key: string)
    requires ReadKeys(role, d, before).Ok? && (HoldsMasks(role, d) ==> d.K().publish !in before)
    ensures key in ReadKeys(role, d, before).value <==> key in before || CapabilityReads(role, d, key)
  {
    ChannelKeysExactly(d, key);
    if HoldsMasks(role, d) {
      PublishEndsAlone(d, d);
      ChannelKeysExactly(d, d.K().publish);
      assert d.K().publish in before + ChannelKeys(d);
      var rest := ChannelKeys(d)[1..];
      assert ChannelKeys(d) == [d.K().publish] + rest;
      assert before + ChannelKeys(d) == before + [d.K().publish] + rest;
      WithoutFirstAt(before, d.K().publish, rest);
      RestOfChannels(d, key);
    }
  }

  lemma RestOfChannels(d: Declared, key: string)
    requires d.cap.stream.Some?
    ensures key in ChannelKeys(d)[1..] <==> key in ChannelKeys(d) && key != d.K().publish
  {
    PublishEndsAlone(d, d);
    var rest := (if d.cap.update.Some? then [d.K().update] else []) + [d.K().state];
    assert ChannelKeys(d) == [d.K().publish] + rest;
    assert ChannelKeys(d)[1..] == rest;
  }

  lemma MayReadSplits(role: Role, before: seq<Declared>, last: Declared, exchange: string, key: string)
    ensures MayRead(role, before + [last], exchange, key) <==>
            MayRead(role, before, exchange, key) || (last.exchange == exchange && CapabilityReads(role, last, key))
  {
    var ds := before + [last];
    if MayRead(role, before, exchange, key) {
      var i :| 0 <= i < |before| && before[i].exchange == exchange && CapabilityReads(role, before[i], key);
      assert ds[i] == before[i];
    }
    if last.exchange == exchange && CapabilityReads(role, last, key) {
      assert ds[|before|] == last;
    }
  }

  /** No capability at all gives a viewer the key of the masks. */
  lemma MasksAreNotRead(ds: seq<Declared>, exchange: string, masks: Declared)
    requires masks.Is("detection", "detection")
    ensures !MayRead(Viewer, ds, exchange, masks.K().publish)
  {
    forall i | 0 <= i < |ds| ensures !CapabilityReads(Viewer, ds[i], masks.K().publish) {
      PublishEndsAlone(masks, ds[i]);
      if ds[i].K().publish == masks.K().publish { MaskKeyIsItsOwn(masks, ds[i]); }
    }
  }

  /** For every registry, the read list of an exchange holds exactly the keys of the rule. */
  lemma {:induction false} ReadListExactly(role: Role, ds: seq<Declared>, exchange: string, key: string)
    requires Collected(role, ds).Ok?
    ensures key in ListsAt(Collected(role, ds).value, exchange).read <==> MayRead(role, ds, exchange, key)
  {
    if ds != [] {
      var before, last := ds[..|ds| - 1], ds[|ds| - 1];
      assert ds == before + [last];
      ListsAfterOne(role, before, last, exchange);
      ReadListExactly(role, before, exchange, key);
      ReadListExactly(role, before, exchange, last.K().publish);
      if HoldsMasks(role, last) { MasksAreNotRead(before, exchange, last); }
      MayReadSplits(role, before, last, exchange, key);
      if last.exchange == exchange {
        ReadKeysExactly(role, last, ListsAt(Collected(role, before).value, exchange).read, key);
      }
    }
  }

  /** For every registry, the viewer's permissions cannot be built exactly when a detection capability is declared
      without a stream. */
  lemma {:induction false} ViewerFailsExactly(ds: seq<Declared>)
    ensures Collected(Viewer, ds).Err? <==> exists i :: 0 <= i < |ds| && ds[i].Is("detection", "detection") && ds[i].cap.stream.None?
  {
    if ds != [] {
      var before, last := ds[..|ds| - 1], ds[|ds| - 1];
      assert ds == before + [last];
      ViewerFailsExactly(before);
      if Collected(Viewer, before).Ok? && HoldsMasks(Viewer, last) {
        ReadListExactly(Viewer, before, last.exchange, last.K().publish);
        MasksAreNotRead(before, last.exchange, last);
        LastFailsExactly(last, ListsAt(Collected(Viewer, before).value, last.exchange).read);
      }
      assert forall i :: 0 <= i < |before| ==> ds[i] == before[i];
    }
  }

  lemma LastFailsExactly(d: Declared, before: seq<string>)
    requires HoldsMasks(Viewer, d) && d.K().publish !in before
    ensures ReadKeys(Viewer, d, before).Err? <==> d.cap.stream.None?
  {
    PublishEndsAlone(d, d);
    ChannelKeysExactly(d, d.K().publish);
  }

  // ----- expressions -----------------------------------------------------------------------------------

  ghost predicate IsOnExchange(ds: seq<Declared>, exchange: string) {
    exists i :: 0 <= i < |ds| && ds[i].exchange == exchange
  }

  lemma OnExchangeSplits(before: seq<Declared>, last: Declared, exchange: string)
    ensures IsOnExchange(before + [last], exchange) <==> IsOnExchange(before, exchange) || last.exchange == exchange
  {
    var ds := before + [last];
    assert ds[|before|] == last;
    if IsOnExchange(before, exchange) {
      var i :| 0 <= i < |before| && before[i].exchange == exchange;
      assert ds[i].exchange == exchange;
    }
  }

  lemma KeysAfterOne(role: Role, before: seq<Declared>, last: Declared)
    requires Collected(role, before + [last]).Ok?
    ensures Collected(role, before).Ok?
    ensures Collected(role, before + [last]).value.Keys == Collected(role, before).value.Keys + {last.exchange}
  {
    assert (before + [last])[..|before|] == before;
  }

  lemma CoverOneMore(keys: set<string>, before: seq<Declared>, last: Declared, exchange: string)
    requires exchange in keys <==> IsOnExchange(before, exchange)
    ensures exchange in keys + {last.exchange} <==> IsOnExchange(before + [last], exchange)
  {
    OnExchangeSplits(before, last, exchange);
  }

  /** An exchange has lists exactly when some capability is on it. */
  lemma {:induction false} ListsCoverExchanges(role: Role, ds: seq<Declared>, exchange: string)
    requires Collected(role, ds).Ok?
    ensures exchange in Collected(role, ds).value <==> IsOnExchange(ds, exchange)
  {
    if ds != [] {
      var before, last := ds[..|ds| - 1], ds[|ds| - 1];
      assert ds == before + [last];
      KeysAfterOne(role, before, last);
      ListsCoverExchanges(role, before, exchange);
      CoverOneMore(Collected(role, before).value.Keys, before, last, exchange);
    }
  }

  /** On an exchange with a capability a role may always start a stream... */
  lemma StartIsAllowed(role: Role, ds: seq<Declared>, i: nat)
    requires i < |ds|
    ensures MayWrite(role, ds, ds[i].exchange, ds[i].K().Control("start"))
  {
    assert "start" == Verbs(role)[0];
    assert CapabilityWrites(role, ds[i], ds[i].K().Control("start"));
  }

  /** ...and read a state. */
  lemma StateIsAllowed(role: Role, ds: seq<Declared>, i: nat)
    requires i < |ds|
    ensures MayRead(role, ds, ds[i].exchange, ds[i].K().state)
  {
    PublishEndsAlone(ds[i], ds[i]);
    assert CapabilityReads(role, ds[i], ds[i].K().state);
  }

  ghost predicate WritesUpToNewline(role: Role, ds: seq<Declared>, exchange: string, key: string) {
    MayWrite(role, ds, exchange, key)
    || (key != "" && key[|key| - 1] == '\n' && MayWrite(role, ds, exchange, key[..|key| - 1]))
  }

  ghost predicate ReadsUpToNewline(role: Role, ds: seq<Declared>, exchange: string, key: string) {
    MayRead(role, ds, exchange, key)
    || (key != "" && key[|key| - 1] == '\n' && MayRead(role, ds, exchange, key[..|key| - 1]))
  }

  lemma NoExchangeNoRule(role: Role, ds: seq<Declared>, exchange: string, key: string)
    requires !IsOnExchange(ds, exchange)
    ensures !WritesUpToNewline(role, ds, exchange, key) && !ReadsUpToNewline(role, ds, exchange, key)
  {
  }

  /** The write expression of an exchange accepts exactly the keys of the rule, with or without a final newline. */
  lemma WriteExpressionExactly(role: Role, ds: seq<Declared>, exchange: string, key: string)
    requires Collected(role, ds).Ok?
    ensures var m := Permissions(Collected(role, ds).value);
            (exchange in m && TextMatches(m[exchange].write, key)) <==> WritesUpToNewline(role, ds, exchange, key)
  {
    var lists := Collected(role, ds).value;
    ListsCoverExchanges(role, ds, exchange);
    if exchange in lists {
      var i :| 0 <= i < |ds| && ds[i].exchange == exchange;
      StartIsAllowed(role, ds, i);
      WriteListExactly(role, ds, exchange, ds[i].K().Control("start"));
      WriteListExactly(role, ds, exchange, key);
      if key != "" { WriteListExactly(role, ds, exchange, key[..|key| - 1]); }
      AlternationMatches(lists[exchange].write, key);
    } else {
      NoExchangeNoRule(role, ds, exchange, key);
    }
  }

  lemma ReadExpressionExactly(role: Role, ds: seq<Declared>, exchange: string, key: string)
    requires Collected(role, ds).Ok?
    ensures var m := Permissions(Collected(role, ds).value);
            (exchange in m && TextMatches(m[exchange].read, key)) <==> ReadsUpToNewline(role, ds, exchange, key)
  {
    var lists := Collected(role, ds).value;
    ListsCoverExchanges(role, ds, exchange);
    if exchange in lists {
      var i :| 0 <= i < |ds| && ds[i].exchange == exchange;
      StateIsAllowed(role, ds, i);
      ReadListExactly(role, ds, exchange, ds[i].K().state);
      ReadListExactly(role, ds, exchange, key);
      if key != "" { ReadListExactly(role, ds, exchange, key[..|key| - 1]); }
      AlternationMatches(lists[exchange].read, key);
    } else {
      NoExchangeNoRule(role, ds, exchange, key);
    }
  }

  // ----- the registry --------------------------------------------------------------------------------------

  lemma {:induction false} CapabilitiesOfOne(c: EquipmentContract, n: nat, i: nat)
    requires n <= |c.capabilities| && i < n
    ensures CapabilitiesOf(c, n)[i] == Declared(c.name, c.exchange, c.capabilities[i])
  {
    if i < n - 1 {
      CapabilitiesOfOne(c, n - 1, i);
    }
  }

  /** Every declared capability belongs to a contract of the registry. */
  lemma {:induction false} DeclaredByOne(registry: seq<EquipmentContract>, i: nat) returns (k: nat, j: nat)
    requires i < |AllCapabilities(registry)|
    ensures k < |registry| && j < |registry[k].capabilities|
    ensures AllCapabilities(registry)[i] == Declared(registry[k].name, registry[k].exchange, registry[k].capabilities[j])
  {
    var before, last := registry[..|registry| - 1], registry[|registry| - 1];
    if i < |AllCapabilities(before)| {
      k, j := DeclaredByOne(before, i);
    } else {
      k, j := |registry| - 1, i - |AllCapabilities(before)|;
      CapabilitiesOfOne(last, |last.capabilities|, j);
    }
  }

  lemma DeclaredOnExchange(registry: seq<EquipmentContract>, exchange: string)
    requires IsOnExchange(AllCapabilities(registry), exchange)
    ensures exchange in Exchanges(registry)
  {
    var i :| 0 <= i < |AllCapabilities(registry)| && AllCapabilities(registry)[i].exchange == exchange;
    var k, j := DeclaredByOne(registry, i);
    assert registry[k] in registry;
  }

  lemma AnythingMatches(key: string)
    ensures TextMatches(ANYTHING, key)
  {
  }

  // ----- the roles -------------------------------------------------------------------------------------------

  /** The rule of a role by its name, for any key. */
  ghost predicate RoleMayWrite(registry: seq<EquipmentContract>, role: string, exchange: string, key: string) {
    if role == "viewer" then WritesUpToNewline(Viewer, AllCapabilities(registry), exchange, key)
    else if role == "operator" then WritesUpToNewline(Operator, AllCapabilities(registry), exchange, key)
    else exchange in Exchanges(registry)
  }

  ghost predicate RoleMayRead(registry: seq<EquipmentContract>, role: string, exchange: string, key: string) {
    if role == "viewer" then ReadsUpToNewline(Viewer, AllCapabilities(registry), exchange, key)
    else if role == "operator" then ReadsUpToNewline(Operator, AllCapabilities(registry), exchange, key)
    else exchange in Exchanges(registry)
  }

  /** For every registry, exchange and key, publishing is permitted exactly where the role's rule says so. */
  lemma PermitsExactly(registry: seq<EquipmentContract>, role: string, exchange: string, key: string)
    requires Permits(registry, role, exchange, key).Ok?
    ensures Permits(registry, role, exchange, key).value <==> RoleMayWrite(registry, role, exchange, key)
  {
    if role == "viewer" {
      WriteExpressionExactly(Viewer, AllCapabilities(registry), exchange, key);
    } else if role == "operator" {
      WriteExpressionExactly(Operator, AllCapabilities(registry), exchange, key);
    } else {
      AnythingMatches(key);
    }
  }

  /** Subscribing likewise. */
  lemma PermitsReadExactly(registry: seq<EquipmentContract>, role: string, exchange: string, key: string)
    requires PermitsRead(registry, role, exchange, key).Ok?
    ensures PermitsRead(registry, role, exchange, key).value <==> RoleMayRead(registry, role, exchange, key)
  {
    if role == "viewer" {
      ReadExpressionExactly(Viewer, AllCapabilities(registry), exchange, key);
    } else if role == "operator" {
      ReadExpressionExactly(Operator, AllCapabilities(registry), exchange, key);
    } else {
      AnythingMatches(key);
    }
  }

  lemma ViewerWritesAsOperator(d: Declared, key: string)
    requires CapabilityWrites(Viewer, d, key)
    ensures CapabilityWrites(Operator, d, key)
  {
    if verb :| verb in Verbs(Viewer) && key == d.K().Control(verb) {
      assert Verbs(Operator) == Verbs(Viewer) + ["config"];
      assert verb in Verbs(Operator);
    }
  }

  lemma RuleContained(ds: seq<Declared>, exchange: string, key: string)
    ensures MayWrite(Viewer, ds, exchange, key) ==> MayWrite(Operator, ds, exchange, key)
    ensures MayRead(Viewer, ds, exchange, key) ==> MayRead(Operator, ds, exchange, key)
  {
    if MayWrite(Viewer, ds, exchange, key) {
      var i :| 0 <= i < |ds| && ds[i].exchange == exchange && CapabilityWrites(Viewer, ds[i], key);
      ViewerWritesAsOperator(ds[i], key);
    }
    if MayRead(Viewer, ds, exchange, key) {
      var i :| 0 <= i < |ds| && ds[i].exchange == exchange && CapabilityReads(Viewer, ds[i], key);
      assert CapabilityReads(Operator, ds[i], key);
    }
  }

  /** A viewer may publish and read no more than an operator, and an operator no more than an administrator. */
  lemma RolesAreContained(registry: seq<EquipmentContract>, exchange: string, key: string)
    ensures RoleMayWrite(registry, "viewer", exchange, key) ==> RoleMayWrite(registry, "operator", exchange, key)
    ensures RoleMayRead(registry, "viewer", exchange, key) ==> RoleMayRead(registry, "operator", exchange, key)
    ensures RoleMayWrite(registry, "operator", exchange, key) ==> RoleMayWrite(registry, "admin", exchange, key)
    ensures RoleMayRead(registry, "operator", exchange, key) ==> RoleMayRead(registry, "admin", exchange, key)
  {
    var ds := AllCapabilities(registry);
    RuleContained(ds, exchange, key);
    if key != "" { RuleContained(ds, exchange, key[..|key| - 1]); }
    if IsOnExchange(ds, exchange) {
      DeclaredOnExchange(registry, exchange);
    } else {
      NoExchangeNoRule(Operator, ds, exchange, key);
    }
  }

  lemma {:induction false} OperatorNeverFails(ds: seq<Declared>)
    ensures Collected(Operator, ds).Ok?
  {
    if ds != [] {
      OperatorNeverFails(ds[..|ds| - 1]);
    }
  }

  /** So whatever a viewer is permitted, an operator and an administrator are too. */
  lemma PermitsIsMonotone(registry: seq<EquipmentContract>, exchange: string, key: string)
    requires Permits(registry, "viewer", exchange, key) == Ok(true) || Permits(registry, "operator", exchange, key) == Ok(true)
    ensures Permits(registry, "operator", exchange, key) == Ok(true) && Permits(registry, "admin", exchange, key) == Ok(true)
  {
    OperatorNeverFails(AllCapabilities(registry));
    if Permits(registry, "viewer", exchange, key).Ok? {
      PermitsExactly(registry, "viewer", exchange, key);
    }
    PermitsExactly(registry, "operator", exchange, key);
    PermitsExactly(registry, "admin", exchange, key);
    RolesAreContained(registry, exchange, key);
  }

  lemma PermitsReadIsMonotone(registry: seq<EquipmentContract>, exchange: string, key: string)
    requires PermitsRead(registry, "viewer", exchange, key) == Ok(true) || PermitsRead(registry, "operator", exchange, key) == Ok(true)
    ensures PermitsRead(registry, "operator", exchange, key) == Ok(true) && PermitsRead(registry, "admin", exchange, key) == Ok(true)
  {
    OperatorNeverFails(AllCapabilities(registry));
    if PermitsRead(registry, "viewer", exchange, key).Ok? {
      PermitsReadExactly(registry, "viewer", exchange, key);
    }
    PermitsReadExactly(registry, "operator", exchange, key);
    PermitsReadExactly(registry, "admin", exchange, key);
    RolesAreContained(registry, exchange, key);
  }

  /** For every registry, the masks of the detection stream are never readable by a viewer. */
  lemma MasksAreKeptFromViewers(registry: seq<EquipmentContract>, exchange: string)
    ensures PermitsRead(registry, "viewer", exchange, Keys("detection", "detection").publish) != Ok(true)
  {
    var masks := Declared("detection", "", Capability("detection", StreamKind, [], None, None));
    var key := masks.K().publish;
    assert key[|key| - 1] == 'b';
    MasksAreNotRead(AllCapabilities(registry), exchange, masks);
    if PermitsRead(registry, "viewer", exchange, key).Ok? {
      PermitsReadExactly(registry, "viewer", exchange, key);
    }
  }
}
