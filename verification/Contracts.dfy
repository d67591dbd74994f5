/** Contracts and the routing keys derived from them (src/lumi/contracts/spec.py), with topic matching as a topic
    exchange does it (section 3.1.3.3 of the AMQP 0-9-1 specification). */
module Contracts {
  import opened Common

  datatype Kind = RpcKind | StreamKind | PubSubKind | DuplexKind

  datatype Op = Op(name: string)

  datatype StreamSpec = StreamSpec(name: string)

  datatype Capability = Capability(name: string, kind: Kind, ops: seq<Op>, stream: Option<StreamSpec>, update: Option<StreamSpec>)

  datatype EquipmentContract = EquipmentContract(name: string, exchange: string, capabilities: seq<Capability>)

  const RESERVED_OP_NAMES: set<string> := {
    "call", "get_state", "next", "next_update", "shutdown_server", "start", "start_streaming", "state", "stop",
    "stop_streaming", "subscribe_state", "subscribe_stream", "subscribe_updates", "unsubscribe_stream" }

  datatype ContractError = BadShape | DuplicateOp(op: string) | ReservedOp(op: string) | DuplicateCapability(capability: string)

  // ----- what a contract may be ----------------------------------------------------------------

  /** A kind fixes whether there are ops, a stream and an update channel. */
  predicate ShapeFits(c: Capability) {
    match c.kind
    case RpcKind => c.ops != [] && c.stream.None? && c.update.None?
    case StreamKind => c.ops == [] && c.stream.Some? && c.update.None?
    case PubSubKind => c.ops != [] && c.stream.None? && c.update.Some?
    case DuplexKind => c.ops != [] && c.stream.Some? && c.update.None?
  }

  /** Ops go with every kind but a stream, a stream with a stream or duplex kind, and an update channel with pubsub. */
  lemma ShapeFitsExactly(c: Capability)
    ensures ShapeFits(c) <==>
            && (c.ops == [] <==> c.kind == StreamKind)
            && (c.stream.Some? <==> c.kind == StreamKind || c.kind == DuplexKind)
            && (c.update.Some? <==> c.kind == PubSubKind)
  {
  }

  ghost predicate OpsAreDistinct(ops: seq<Op>) {
    forall i, j :: 0 <= i < j < |ops| ==> ops[i].name != ops[j].name
  }

  ghost predicate OpsAreFree(ops: seq<Op>) {
    forall i :: 0 <= i < |ops| ==> ops[i].name !in RESERVED_OP_NAMES
  }

  ghost predicate CapabilityIsValid(c: Capability) {
    ShapeFits(c) && OpsAreDistinct(c.ops) && OpsAreFree(c.ops)
  }

  /** The checks made when a capability is declared accept exactly the valid ones, and name the offence. */
  method CheckCapability(c: Capability) returns (error: Option<ContractError>)
    ensures error.None? <==> CapabilityIsValid(c)
    ensures error.Some? ==> match error.value
            case BadShape => !ShapeFits(c)
            case DuplicateOp(name) => exists i, j :: 0 <= i < j < |c.ops| && c.ops[i].name == c.ops[j].name == name
            case ReservedOp(name) => name in RESERVED_OP_NAMES && exists i :: 0 <= i < |c.ops| && c.ops[i].name == name
            case DuplicateCapability(_) => false
  {
    if (c.kind.RpcKind? || c.kind.PubSubKind? || c.kind.DuplexKind?) && c.ops == [] {
      return Some(BadShape);
    }
    if c.kind.StreamKind? && c.ops != [] {
      return Some(BadShape);
    }
    if (c.kind.StreamKind? || c.kind.DuplexKind?) && c.stream.None? {
      return Some(BadShape);
    }
    if (c.kind.RpcKind? || c.kind.PubSubKind?) && c.stream.Some? {
      return Some(BadShape);
    }
    if c.kind.PubSubKind? && c.update.None? {
      return Some(BadShape);
    }
    if !c.kind.PubSubKind? && c.update.Some? {
      return Some(BadShape);
    }
    var seen: set<string> := {};
    var i := 0;
    while i < |c.ops|
      invariant i <= |c.ops|
      invariant forall name :: name in seen <==> exists j :: 0 <= j < i && c.ops[j].name == name
      invariant OpsAreDistinct(c.ops[..i]) && OpsAreFree(c.ops[..i])
    {
      var op := c.ops[i];
      if op.name in seen {
        return Some(DuplicateOp(op.name));
      }
      if op.name in RESERVED_OP_NAMES {
        return Some(ReservedOp(op.name));
      }
      seen := seen + {op.name};
      i := i + 1;
    }
    assert c.ops[..i] == c.ops;
    return None;
  }

  ghost predicate CapabilitiesAreDistinct(caps: seq<Capability>) {
    forall i, j :: 0 <= i < j < |caps| ==> caps[i].name != caps[j].name
  }

  method CheckContract(c: EquipmentContract) returns (error: Option<ContractError>)
    ensures error.None? <==> CapabilitiesAreDistinct(c.capabilities)
    ensures error.Some? ==> error.value.DuplicateCapability?
    ensures error.Some? ==> exists i, j :: 0 <= i < j < |c.capabilities| && c.capabilities[i].name == c.capabilities[j].name == error.value.capability
  {
    var seen: set<string> := {};
    var i := 0;
    while i < |c.capabilities|
      invariant i <= |c.capabilities|
      invariant forall name :: name in seen <==> exists j :: 0 <= j < i && c.capabilities[j].name == name
      invariant CapabilitiesAreDistinct(c.capabilities[..i])
    {
      var cap := c.capabilities[i];
      if cap.name in seen {
        return Some(DuplicateCapability(cap.name));
      }
      seen := seen + {cap.name};
      i := i + 1;
    }
    assert c.capabilities[..i] == c.capabilities;
    return None;
  }

  predicate HasOp(c: Capability, name: string) {
    exists i :: 0 <= i < |c.ops| && c.ops[i].name == name
  }

  /** The op of that name, or none; in a valid capability it is the only one. */
  method FindOp(c: Capability, name: string) returns (op: Option<Op>)
    ensures op.Some? <==> HasOp(c, name)
    ensures op.Some? ==> op.value in c.ops && op.value.name == name
    ensures op.Some? && OpsAreDistinct(c.ops) ==> forall o :: o in c.ops && o.name == name ==> o == op.value
  {
    var i := 0;
    while i < |c.ops|
      invariant i <= |c.ops|
      invariant forall j :: 0 <= j < i ==> c.ops[j].name != name
    {
      if c.ops[i].name == name {
        return Some(c.ops[i]);
      }
      i := i + 1;
    }
    return None;
  }

  /** A valid capability pushes over one channel at most. */
  lemma OneChannelAtMost(c: Capability)
    requires CapabilityIsValid(c)
    ensures !(c.stream.Some? && c.update.Some?)
  {
  }

  // ----- routing keys ----------------------------------------------------------------------------

  datatype RoutingKeys = RoutingKeys(requestPrefix: string, controlPrefix: string, state: string, publish: string, update: string)
  {
    function RequestPattern(): string {
      requestPrefix + ".*"
    }

    function ControlPattern(): string {
      controlPrefix + ".*"
    }

    function Request(op: string): string {
      requestPrefix + "." + op
    }

    function Control(verb: string): string {
      controlPrefix + "." + verb
    }
  }

  function Keys(equipment: string, capability: string): RoutingKeys {
    var base := equipment + "." + capability;
    RoutingKeys(base + ".req", base + ".ctrl", base + ".state", base + ".pub", base + ".update")
  }

  // ----- topics ------------------------------------------------------------------------------------

  /** The words of a key: what lies between its dots. */
  function Words(s: string): (words: seq<string>)
    ensures |words| > 0
  {
    if s == "" then [""]
    else
      var rest := Words(s[1..]);
      if s[0] == '.' then [""] + rest else [[s[0]] + rest[0]] + rest[1..]
  }

  /** A star stands for one word, a hash for any number of them. */
  predicate Matches(pattern: seq<string>, key: seq<string>)
    decreases |pattern| + |key|
  {
    if pattern == [] then key == []
    else if pattern[0] == "#" then Matches(pattern[1..], key) || (key != [] && Matches(pattern, key[1..]))
    else key != [] && (pattern[0] == "*" || pattern[0] == key[0]) && Matches(pattern[1..], key[1..])
  }

  predicate TopicMatches(pattern: string, key: string) {
    Matches(Words(pattern), Words(key))
  }

  predicate IsDotFree(s: string) {
    '.' !in s
  }

  /** A name that is one word and not a wildcard. */
  predicate IsPlainName(s: string) {
    IsDotFree(s) && s != "*" && s != "#"
  }

  lemma {:induction false} WordsOfOne(w: string)
    requires IsDotFree(w)
    ensures Words(w) == [w]
  {
    if w != "" {
      WordsOfOne(w[1..]);
      assert w[0] != '.' && w == [w[0]] + w[1..];
    }
  }

  /** The words of two texts with a dot between are those of the first, then those of the second. */
  lemma {:induction false} WordsOfDotted(a: string, b: string)
    ensures Words(a + "." + b) == Words(a) + Words(b)
  {
    var s := a + "." + b;
    if a == "" {
      assert s[1..] == b;
    } else {
      WordsOfDotted(a[1..], b);
      assert s[1..] == a[1..] + "." + b && s[0] == a[0];
      WordsAddFirst(a[0], Words(a[1..]), Words(b));
    }
  }

  lemma WordsAddFirst(c: char, x: seq<string>, y: seq<string>)
    requires x != []
    ensures [""] + (x + y) == [""] + x + y
    ensures [[c] + (x + y)[0]] + (x + y)[1..] == [[c] + x[0]] + x[1..] + y
  {
  }

  lemma WordsOfJoined(w: string, rest: string)
    requires IsDotFree(w)
    ensures Words(w + "." + rest) == [w] + Words(rest)
  {
    WordsOfDotted(w, rest);
    WordsOfOne(w);
  }

  function Dotted(words: seq<string>): string
    requires words != []
  {
    if |words| == 1 then words[0] else words[0] + "." + Dotted(words[1..])
  }

  lemma {:induction false} WordsAreDotted(s: string)
    ensures Dotted(Words(s)) == s
  {
    if s != "" {
      WordsAreDotted(s[1..]);
      assert s == [s[0]] + s[1..];
    }
  }

  /** A text is determined by its words. */
  lemma WordsAreInjective(s: string, t: string)
    requires Words(s) == Words(t)
    ensures s == t
  {
    WordsAreDotted(s);
    WordsAreDotted(t);
  }

  /** Without wildcards a pattern matches itself alone. */
  lemma {:induction false} LiteralMatches(pattern: seq<string>, key: seq<string>)
    requires forall i :: 0 <= i < |pattern| ==> pattern[i] != "*" && pattern[i] != "#"
    ensures Matches(pattern, key) <==> pattern == key
  {
    if pattern != [] && key != [] && pattern[0] == key[0] {
      LiteralMatches(pattern[1..], key[1..]);
      assert pattern == [pattern[0]] + pattern[1..] && key == [key[0]] + key[1..];
    }
  }

  ghost predicate HasNoWildcard(words: seq<string>) {
    forall i :: 0 <= i < |words| ==> words[i] != "*" && words[i] != "#"
  }

  /** Words and a star match those words with any one more. */
  lemma {:induction false} StarMatches(words: seq<string>, key: seq<string>)
    requires HasNoWildcard(words)
    ensures Matches(words + ["*"], key) <==> |key| == |words| + 1 && key[..|words|] == words
  {
    var p := words + ["*"];
    if words == [] {
      assert p == ["*"] && p[1..] == [];
      if key != [] { assert Matches(p, key) <==> key[1..] == []; }
    } else if key != [] {
      StarMatches(words[1..], key[1..]);
      assert p[0] == words[0] && p[1..] == words[1..] + ["*"];
      assert words == [words[0]] + words[1..];
      if |key| == |words| + 1 { assert key[..|words|] == [key[0]] + key[1..][..|words| - 1]; }
    }
  }

  /** Words and a hash match those words with any more, or none. */
  lemma {:induction false} HashMatches(words: seq<string>, key: seq<string>)
    requires HasNoWildcard(words)
    ensures Matches(words + ["#"], key) <==> |words| <= |key| && key[..|words|] == words
    decreases |words| + |key|
  {
    var p := words + ["#"];
    if words == [] {
      assert p == ["#"] && p[1..] == [];
      if key != [] { HashMatches(words, key[1..]); }
    } else if key != [] {
      HashMatches(words[1..], key[1..]);
      assert p[0] == words[0] && p[1..] == words[1..] + ["#"];
      assert words == [words[0]] + words[1..];
      if |words| <= |key| { assert key[..|words|] == [key[0]] + key[1..][..|words| - 1]; }
    }
  }

  // ----- what a binding takes ------------------------------------------------------------------------

  /** What a capability's keys start with. */
  function BaseName(e: string, c: string): string {
    e + "." + c
  }

  lemma ChannelKeyWords(base: string, channel: string)
    requires IsDotFree(channel)
    ensures Words(base + ("." + channel)) == Words(base) + [channel]
  {
    DotApart(base, channel);
    WordsOfDotted(base, channel);
    WordsOfOne(channel);
  }

  lemma DotApart(a: string, b: string)
    ensures a + ("." + b) == a + "." + b
  {
  }

  lemma OpKeyWords(base: string, kind: string, op: string)
    requires IsDotFree(kind) && IsDotFree(op)
    ensures Words(base + ("." + kind) + "." + op) == Words(base) + [kind] + [op]
  {
    ChannelKeyWords(base, kind);
    WordsOfDotted(base + ("." + kind), op);
    WordsOfOne(op);
  }

  lemma OpBindingWords(base: string, kind: string)
    requires IsDotFree(kind)
    ensures Words(base + ("." + kind) + ".*") == Words(base) + [kind] + ["*"]
  {
    OpKeyWords(base, kind, "*");
    StarText(base + ("." + kind));
  }

  lemma StarText(prefix: string)
    ensures prefix + ".*" == prefix + "." + "*"
  {
  }

  lemma LastWords(x: seq<string>, a: string, y: seq<string>, b: string)
    ensures x + [a] == y + [b] <==> x == y && a == b
  {
    if x + [a] == y + [b] {
      assert (x + [a])[..|x|] == x && (y + [b])[..|y|] == y;
      assert (x + [a])[|x|] == a && (y + [b])[|y|] == b;
    }
  }

  /** A wildcard binding of one base and kind takes an op key of another exactly when base and kind are the same. */
  lemma OpBindingExactly(base: string, kind: string, base': string, kind': string, op: string)
    requires HasNoWildcard(Words(base)) && IsPlainName(kind) && IsDotFree(kind') && IsDotFree(op)
    ensures TopicMatches(base + ("." + kind) + ".*", base' + ("." + kind') + "." + op) <==> base == base' && kind == kind'
  {
    var words, words' := Words(base) + [kind], Words(base') + [kind'];
    OpBindingWords(base, kind);
    OpKeyWords(base', kind', op);
    StarMatches(words, words' + [op]);
    LastWords(words, op, words', op);
    LastWords(Words(base), kind, Words(base'), kind');
    if |words| == |words'| { assert (words' + [op])[..|words|] == words'; }
    if Words(base) == Words(base') { WordsAreInjective(base, base'); }
  }

  /** A channel binding takes an op key exactly when that key is its text: its base ends in the key's kind, and the
      op is named like the channel. */
  lemma ChannelBindingExactly(base: string, channel: string, base': string, kind': string, op: string)
    requires HasNoWildcard(Words(base)) && IsPlainName(channel) && IsDotFree(kind') && IsDotFree(op)
    ensures TopicMatches(base + ("." + channel), base' + ("." + kind') + "." + op) <==>
            base == base' + "." + kind' && channel == op
  {
    ChannelKeyWords(base, channel);
    OpKeyWords(base', kind', op);
    LiteralMatches(Words(base) + [channel], Words(base') + [kind'] + [op]);
    LastWords(Words(base), channel, Words(base') + [kind'], op);
    ChannelKeyWords(base', kind');
    DotApart(base', kind');
    if Words(base) == Words(base') + [kind'] { WordsAreInjective(base, base' + "." + kind'); }
  }

  /** A wildcard binding takes a channel key exactly when the key's base is the binding's prefix. */
  lemma OpBindingOnChannelExactly(base: string, kind: string, base': string, channel: string)
    requires HasNoWildcard(Words(base)) && IsPlainName(kind) && IsDotFree(channel)
    ensures TopicMatches(base + ("." + kind) + ".*", base' + ("." + channel)) <==> base' == base + "." + kind
  {
    var words := Words(base) + [kind];
    OpBindingWords(base, kind);
    ChannelKeyWords(base', channel);
    StarMatches(words, Words(base') + [channel]);
    LastWords(words, channel, Words(base'), channel);
    if |words| == |Words(base')| { assert (Words(base') + [channel])[..|words|] == Words(base'); }
    ChannelKeyWords(base, kind);
    DotApart(base, kind);
    if words == Words(base') { WordsAreInjective(base', base + "." + kind); }
  }

  /** The keys, written with base name, dot and kind apart. */
  lemma KeyTexts(e: string, c: string, op: string)
    ensures var k, base := Keys(e, c), BaseName(e, c);
            && k.RequestPattern() == base + ("." + "req") + ".*" && k.Request(op) == base + ("." + "req") + "." + op
            && k.ControlPattern() == base + ("." + "ctrl") + ".*" && k.Control(op) == base + ("." + "ctrl") + "." + op
            && k.state == base + ("." + "state") && k.publish == base + ("." + "pub") && k.update == base + ("." + "update")
  {
    assert "." + "req" == ".req" && "." + "ctrl" == ".ctrl" && "." + "state" == ".state" && "." + "pub" == ".pub" && "." + "update" == ".update";
  }

  /** The words of every request and control key and pattern: those of the base name, the kind, the op or a star. */
  lemma KeyWords(e: string, c: string, op: string)
    requires IsDotFree(op)
    ensures var k, base := Keys(e, c), Words(BaseName(e, c));
            && Words(k.RequestPattern()) == base + ["req"] + ["*"] && Words(k.Request(op)) == base + ["req"] + [op]
            && Words(k.ControlPattern()) == base + ["ctrl"] + ["*"] && Words(k.Control(op)) == base + ["ctrl"] + [op]
  {
    KeyTexts(e, c, op);
    OpBindingWords(BaseName(e, c), "req");
    OpBindingWords(BaseName(e, c), "ctrl");
    OpKeyWords(BaseName(e, c), "req", op);
    OpKeyWords(BaseName(e, c), "ctrl", op);
  }

  /** For any names, a capability's request binding takes a request key exactly when the two have the same base name. */
  lemma RequestBindingExactly(e: string, c: string, e': string, c': string, op: string)
    requires HasNoWildcard(Words(BaseName(e, c))) && IsDotFree(op)
    ensures TopicMatches(Keys(e, c).RequestPattern(), Keys(e', c').Request(op)) <==> BaseName(e, c) == BaseName(e', c')
  {
    KeyTexts(e, c, op);
    KeyTexts(e', c', op);
    OpBindingExactly(BaseName(e, c), "req", BaseName(e', c'), "req", op);
  }

  lemma PlainBase(e: string, c: string)
    requires IsPlainName(e) && IsPlainName(c)
    ensures HasNoWildcard(Words(BaseName(e, c))) && Words(BaseName(e, c)) == [e, c]
  {
    WordsOfDotted(e, c);
    WordsOfOne(e);
    WordsOfOne(c);
  }

  lemma BaseWords(e: string, c: string)
    requires IsDotFree(e) && IsDotFree(c)
    ensures Words(BaseName(e, c)) == [e, c]
  {
    WordsOfDotted(e, c);
    WordsOfOne(e);
    WordsOfOne(c);
  }

  /** With names of one word the base names are the same exactly when the names are. */
  lemma RequestBindingMatchesOwn(e: string, c: string, e': string, c': string, op: string)
    requires IsPlainName(e) && IsPlainName(c) && IsDotFree(e') && IsDotFree(c') && IsDotFree(op)
    ensures TopicMatches(Keys(e, c).RequestPattern(), Keys(e', c').Request(op)) <==> e == e' && c == c'
  {
    PlainBase(e, c);
    BaseWords(e', c');
    RequestBindingExactly(e, c, e', c', op);
    assert [e, c][0] == e && [e, c][1] == c && [e', c'][0] == e' && [e', c'][1] == c';
  }

  /** A base of two words is no other base with a word more. */
  lemma TwoWordsOnly(e: string, c: string, base: string, kind: string)
    requires IsDotFree(e) && IsDotFree(c) && IsDotFree(kind) && |Words(base)| >= 2
    ensures BaseName(e, c) != base + "." + kind
  {
    BaseWords(e, c);
    WordsOfDotted(base, kind);
    WordsOfOne(kind);
    assert |Words(BaseName(e, c))| != |Words(base + "." + kind)|;
  }

  /** A request key matches no control, state, publish or update binding, of whatever capability. */
  lemma RequestKeyMatchesNothingElse(e: string, c: string, e': string, c': string, op: string)
    requires IsPlainName(e) && IsPlainName(c) && IsDotFree(op)
    ensures var k, key := Keys(e, c), Keys(e', c').Request(op);
            && !TopicMatches(k.ControlPattern(), key) && !TopicMatches(k.state, key)
            && !TopicMatches(k.publish, key) && !TopicMatches(k.update, key)
  {
    var base, base' := BaseName(e, c), BaseName(e', c');
    KeyTexts(e, c, op);
    KeyTexts(e', c', op);
    PlainBase(e, c);
    WordsOfDotted(e', c');
    TwoWordsOnly(e, c, base', "req");
    OpBindingExactly(base, "ctrl", base', "req", op);
    ChannelBindingExactly(base, "state", base', "req", op);
    ChannelBindingExactly(base, "pub", base', "req", op);
    ChannelBindingExactly(base, "update", base', "req", op);
  }

  /** A request binding takes no control, state, publish or update key. */
  lemma RequestBindingTakesNothingElse(e: string, c: string, e': string, c': string, verb: string)
    requires IsPlainName(e) && IsPlainName(c) && IsDotFree(e') && IsDotFree(c') && IsDotFree(verb)
    ensures var p, k := Keys(e, c).RequestPattern(), Keys(e', c');
            !TopicMatches(p, k.Control(verb)) && !TopicMatches(p, k.state) && !TopicMatches(p, k.publish) && !TopicMatches(p, k.update)
  {
    var base, base' := BaseName(e, c), BaseName(e', c');
    KeyTexts(e, c, verb);
    KeyTexts(e', c', verb);
    PlainBase(e, c);
    TwoWordsOnly(e', c', base, "req");
    OpBindingExactly(base, "req", base', "ctrl", verb);
    OpBindingOnChannelExactly(base, "req", base', "state");
    OpBindingOnChannelExactly(base, "req", base', "pub");
    OpBindingOnChannelExactly(base, "req", base', "update");
  }

  // ----- the registry --------------------------------------------------------------------------------

  /** Contracts under different names, each with different capabilities, all names plain. */
  ghost predicate RegistryIsValid(r: seq<EquipmentContract>) {
    && (forall i, j :: 0 <= i < j < |r| ==> r[i].name != r[j].name)
    && (forall i :: 0 <= i < |r| ==> IsPlainName(r[i].name) && CapabilitiesAreDistinct(r[i].capabilities))
    && (forall i, j :: 0 <= i < |r| && 0 <= j < |r[i].capabilities| ==> IsPlainName(r[i].capabilities[j].name))
  }

  function BaseAt(r: seq<EquipmentContract>, i: nat, j: nat): string
    requires i < |r| && j < |r[i].capabilities|
  {
    BaseName(r[i].name, r[i].capabilities[j].name)
  }

  /** Different capabilities have different base names, none with a wildcard for a word. */
  ghost predicate BasesAreDistinct(r: seq<EquipmentContract>) {
    && (forall i: nat, j: nat :: i < |r| && j < |r[i].capabilities| ==> HasNoWildcard(Words(BaseAt(r, i, j))))
    && (forall i: nat, j: nat, i': nat, j': nat ::
          i < |r| && j < |r[i].capabilities| && i' < |r| && j' < |r[i'].capabilities| && BaseAt(r, i, j) == BaseAt(r, i', j') ==>
            i == i' && j == j')
  }

  /** Every request key matches the request binding of exactly one capability of the registry, the one it is for, as
      long as base names are different. */
  lemma ExactlyOneBindingMatches(r: seq<EquipmentContract>, i: nat, j: nat, op: string, i': nat, j': nat)
    requires BasesAreDistinct(r) && IsDotFree(op)
    requires i < |r| && j < |r[i].capabilities| && i' < |r| && j' < |r[i'].capabilities|
    ensures TopicMatches(Keys(r[i'].name, r[i'].capabilities[j'].name).RequestPattern(), Keys(r[i].name, r[i].capabilities[j].name).Request(op))
            <==> i == i' && j == j'
  {
    assert HasNoWildcard(Words(BaseAt(r, i', j')));
    RequestBindingExactly(r[i'].name, r[i'].capabilities[j'].name, r[i].name, r[i].capabilities[j].name, op);
    assert BaseAt(r, i, j) == BaseAt(r, i', j') ==> i == i' && j == j';
  }

  /** The binding of capability `j'` of contract `i'` takes the request key of this op of `j` of `i`. */
  predicate Takes(r: seq<EquipmentContract>, i': nat, j': nat, i: nat, j: nat, op: string)
    requires i < |r| && j < |r[i].capabilities| && i' < |r| && j' < |r[i'].capabilities|
  {
    TopicMatches(Keys(r[i'].name, r[i'].capabilities[j'].name).RequestPattern(), Keys(r[i].name, r[i].capabilities[j].name).Request(op))
  }

  /** It is exactly the base names that must differ: requests reach their own capability only, if and only if no two
      capabilities have the same. */
  lemma RequestsStayApartExactly(r: seq<EquipmentContract>, op: string)
    requires IsDotFree(op)
    requires forall i: nat, j: nat :: i < |r| && j < |r[i].capabilities| ==> HasNoWildcard(Words(BaseAt(r, i, j)))
    ensures BasesAreDistinct(r) <==>
            forall i: nat, j: nat, i': nat, j': nat ::
              i < |r| && j < |r[i].capabilities| && i' < |r| && j' < |r[i'].capabilities| && Takes(r, i', j', i, j, op) ==>
                i == i' && j == j'
  {
    forall i: nat, j: nat, i': nat, j': nat | i < |r| && j < |r[i].capabilities| && i' < |r| && j' < |r[i'].capabilities|
      ensures Takes(r, i', j', i, j, op) <==> BaseAt(r, i, j) == BaseAt(r, i', j')
    {
      assert HasNoWildcard(Words(BaseAt(r, i', j')));
      RequestBindingExactly(r[i'].name, r[i'].capabilities[j'].name, r[i].name, r[i].capabilities[j].name, op);
    }
  }

  /** A registry of plain names has different base names. */
  lemma PlainNamesAreDistinct(r: seq<EquipmentContract>)
    requires RegistryIsValid(r)
    ensures BasesAreDistinct(r)
  {
    forall i: nat, j: nat | i < |r| && j < |r[i].capabilities| ensures HasNoWildcard(Words(BaseAt(r, i, j))) {
      PlainBase(r[i].name, r[i].capabilities[j].name);
    }
    forall i: nat, j: nat, i': nat, j': nat |
      i < |r| && j < |r[i].capabilities| && i' < |r| && j' < |r[i'].capabilities| && BaseAt(r, i, j) == BaseAt(r, i', j')
      ensures i == i' && j == j'
    {
      PlainBasesDiffer(r, i, j, i', j');
    }
  }

  lemma PlainBasesDiffer(r: seq<EquipmentContract>, i: nat, j: nat, i': nat, j': nat)
    requires RegistryIsValid(r) && i < |r| && j < |r[i].capabilities| && i' < |r| && j' < |r[i'].capabilities|
    requires BaseAt(r, i, j) == BaseAt(r, i', j')
    ensures i == i' && j == j'
  {
    var a, b := [r[i].name, r[i].capabilities[j].name], [r[i'].name, r[i'].capabilities[j'].name];
    PlainBase(a[0], a[1]);
    PlainBase(b[0], b[1]);
    assert a == b;
    assert a[0] == b[0] && a[1] == b[1];
  }

  /** Dots in names do make base names the same: one capability's requests then reach another's queue. */
  lemma DottedNamesCollide(op: string)
    requires IsDotFree(op)
    ensures TopicMatches(Keys("a", "b.c").RequestPattern(), Keys("a.b", "c").Request(op))
  {
    assert "b.c" == "b" + "." + "c" && BaseName("a", "b.c") == BaseName("a.b", "c");
    WordsOfDotted("a", "b.c");
    WordsOfDotted("b", "c");
    WordsOfOne("a");
    WordsOfOne("b");
    WordsOfOne("c");
    RequestBindingExactly("a", "b.c", "a.b", "c", op);
  }
}
