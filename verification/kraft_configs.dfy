/** `crates/metadata/src/kraft_translate.rs`: config records on the KIP-631 log.
    A whole-map record fans out to one record per key; each is decoded against
    the live image and applied in log order. */
module KraftConfigs {
  import opened Base
  import opened Collections
  import opened MetadataRecords
  import opened Images
  import opened ImageInvariants

  datatype ConfigRecord = ConfigRecord(resourceType: int, resourceName: Str, name: Str, value: Option<Str>)

  datatype TranslateError =
    | NoCounterpart | UnknownTopicId | UnknownTopicName | InvalidReference | InvalidValue | UnknownAclId
    | UnknownPrivateTag | UnknownPrivateRecordVersion | PrivateTagMismatch

  const TOPIC: int := 2
  const BROKER: int := 4
  const CLIENT_METRICS: int := 16
  const GROUP: int := 32

  /** The resources whose record replaces the whole map. */
  predicate IsWholeMap(kind: int) { kind == TOPIC || kind == CLIENT_METRICS || kind == GROUP }

  function Table(x: Image, kind: int): map<Str, Configs>
    requires IsWholeMap(kind)
  {
    if kind == TOPIC then x.topics.configs
    else if kind == CLIENT_METRICS then x.configs.clientMetrics
    else x.configs.groupConfigs
  }

  function WithTable(x: Image, kind: int, m: map<Str, Configs>): Image
    requires IsWholeMap(kind)
  {
    if kind == TOPIC then x.(topics := x.topics.(configs := m))
    else if kind == CLIENT_METRICS then x.(configs := x.configs.(clientMetrics := m))
    else x.(configs := x.configs.(groupConfigs := m))
  }

  function WholeMap(kind: int, resource: Str, configs: Configs): Record
    requires IsWholeMap(kind)
  {
    if kind == TOPIC then V1TopicConfig(resource, configs)
    else if kind == CLIENT_METRICS then V1ClientMetricsConfig(resource, configs)
    else V1GroupConfig(resource, configs)
  }

  lemma ApplyTopicConfig(x: Image, resource: Str, configs: Configs)
    ensures Apply(x, V1TopicConfig(resource, configs))
         == x.(topics := x.topics.(configs := PutConfigs(x.topics.configs, resource, configs)))
  {
  }

  lemma ApplyClientMetrics(x: Image, resource: Str, configs: Configs)
    ensures Apply(x, V1ClientMetricsConfig(resource, configs))
         == x.(configs := x.configs.(clientMetrics := PutConfigs(x.configs.clientMetrics, resource, configs)))
  {
  }

  lemma ApplyGroupConfig(x: Image, resource: Str, configs: Configs)
    ensures Apply(x, V1GroupConfig(resource, configs))
         == x.(configs := x.configs.(groupConfigs := PutConfigs(x.configs.groupConfigs, resource, configs)))
  {
  }

  lemma ApplyWholeMap(x: Image, kind: int, resource: Str, configs: Configs)
    requires IsWholeMap(kind)
    ensures Apply(x, WholeMap(kind, resource, configs))
         == WithTable(x, kind, PutConfigs(Table(x, kind), resource, configs))
  {
    if kind == TOPIC { ApplyTopicConfig(x, resource, configs); }
    else if kind == CLIENT_METRICS { ApplyClientMetrics(x, resource, configs); }
    else { ApplyGroupConfig(x, resource, configs); }
  }

  // ----- the broker resource name -----

  const DEFAULT_BROKER_CONFIG_NODE_ID: NodeId := U64_MAX

  predicate IsDigit(c: char) { '0' <= c <= '9' }

  function DigitValue(c: char): nat requires IsDigit(c) { c as int - '0' as int }

  function DigitChar(d: nat): (c: char)
    requires d < 10
    ensures IsDigit(c) && DigitValue(c) == d
  {
    ('0' as int + d) as char
  }

  /** `u64::to_string`. */
  function Print(n: nat): (s: Str)
    ensures s != [] && forall i :: 0 <= i < |s| ==> IsDigit(s[i])
  {
    if n < 10 then [DigitChar(n)] else Print(n / 10) + [DigitChar(n % 10)]
  }

  function DigitsValue(s: Str): (v: nat)
    requires forall i :: 0 <= i < |s| ==> IsDigit(s[i])
  {
    if s == [] then 0 else DigitsValue(s[..|s| - 1]) * 10 + DigitValue(s[|s| - 1])
  }

  /** `str::parse::<u64>`: an optional plus sign, then one or more digits whose
      value fits. */
  function ParseU64(s: Str): Option<nat>
  {
    var digits := if s != [] && s[0] == '+' then s[1..] else s;
    if digits == [] || exists i :: 0 <= i < |digits| && !IsDigit(digits[i]) then None
    else if DigitsValue(digits) > U64_MAX then None
    else Some(DigitsValue(digits))
  }

  lemma {:induction false} PrintValue(n: nat)
    ensures DigitsValue(Print(n)) == n
  {
    if n < 10 {
      assert Print(n)[..0] == [];
    } else {
      PrintValue(n / 10);
      assert Print(n)[..|Print(n)| - 1] == Print(n / 10);
    }
  }

  lemma ParsePrint(n: nat)
    requires n <= U64_MAX
    ensures ParseU64(Print(n)) == Some(n)
  {
    PrintValue(n);
    assert IsDigit(Print(n)[0]);
  }

  // ----- decoding -----

  /** One key merged onto the map the image holds. */
  function Merge(configs: Configs, name: Str, value: Option<Str>): Configs
  {
    if value.Some? then configs[name := value.value] else configs - {name}
  }

  function ConfigFromKraft(c: ConfigRecord, x: Image): Result<Record, TranslateError>
  {
    if c.resourceType == BROKER then
      if c.resourceName == [] then Ok(V1BrokerConfig(DEFAULT_BROKER_CONFIG_NODE_ID, c.name, c.value))
      else
        match ParseU64(c.resourceName)
        case Some(node) => Ok(V1BrokerConfig(node, c.name, c.value))
        case None => Err(InvalidValue)
    else if IsWholeMap(c.resourceType) then
      Ok(WholeMap(c.resourceType, c.resourceName,
                  Merge(Inner(Table(x, c.resourceType), c.resourceName), c.name, c.value)))
    else Err(InvalidValue)
  }

  /** Decode against the live image, apply, and go on with the next record. */
  function DecodeAll(x: Image, cs: seq<ConfigRecord>): Result<Image, TranslateError>
    decreases |cs|
  {
    if cs == [] then Ok(x)
    else
      match ConfigFromKraft(cs[0], x)
      case Err(e) => Err(e)
      case Ok(rec) => DecodeAll(Apply(x, rec), cs[1..])
  }

  /** The image `y` decodes the record `c` and is `z` after it. */
  predicate StepsTo(y: Image, c: ConfigRecord, z: Image)
  {
    ConfigFromKraft(c, y).Ok? && Apply(y, ConfigFromKraft(c, y).value) == z
  }

  /** Record `i` is decoded and takes the image `st(i)` to the next. */
  ghost predicate Leads(cs: seq<ConfigRecord>, st: nat -> Image, i: nat)
  {
    i < |cs| ==> StepsTo(st(i), cs[i], st(i + 1))
  }

  lemma {:induction false} DecodeSteps(cs: seq<ConfigRecord>, st: nat -> Image, from: nat)
    requires from <= |cs| && forall i: nat :: Leads(cs, st, i)
    ensures DecodeAll(st(from), cs[from..]) == Ok(st(|cs|))
    decreases |cs| - from
  {
    if from < |cs| {
      assert Leads(cs, st, from);
      assert cs[from..][0] == cs[from] && cs[from..][1..] == cs[from + 1..];
      DecodeSteps(cs, st, from + 1);
    }
  }

  function BrokerConfigToKraft(node: NodeId, name: Str, value: Option<Str>): ConfigRecord
  {
    ConfigRecord(BROKER, if node == DEFAULT_BROKER_CONFIG_NODE_ID then [] else Print(node), name, value)
  }

  /** A broker config survives the log, the cluster-wide default included. */
  lemma BrokerConfigRoundTrip(node: NodeId, name: Str, value: Option<Str>, x: Image)
    requires node <= U64_MAX
    ensures ConfigFromKraft(BrokerConfigToKraft(node, name, value), x) == Ok(V1BrokerConfig(node, name, value))
  {
    ParsePrint(node);
  }

  // ----- the fan-out -----

  /** The new value of a key, or none when the new map drops it. */
  function KeyValue(configs: Configs, key: Str): Option<Str>
  {
    if key in configs then Some(configs[key]) else None
  }

  /** What is sent for one key: its new value, or a tombstone. */
  function KeyRecord(kind: int, resource: Str, configs: Configs, key: Str): ConfigRecord
  {
    ConfigRecord(kind, resource, key, KeyValue(configs, key))
  }

  function FanOut(kind: int, resource: Str, configs: Configs, order: seq<Str>): (cs: seq<ConfigRecord>)
    ensures |cs| == |order|
  {
    seq(|order|, i requires 0 <= i < |order| => KeyRecord(kind, resource, configs, order[i]))
  }

  /** `topic_config_to_kraft` and its two siblings: a set for each key of the new
      map, then a tombstone for each key that it drops. `keys` is the order in
      which the two maps were walked. */
  method ConfigToKraft(kind: int, resource: Str, configs: Configs, previous: Configs, walkNew: seq<Str>, walkOld: seq<Str>)
    returns (output: seq<ConfigRecord>, keys: seq<Str>)
    requires Enumerates(walkNew, configs.Keys) && Enumerates(walkOld, previous.Keys)
    ensures Enumerates(keys, configs.Keys + previous.Keys)
    ensures output == FanOut(kind, resource, configs, keys)
  {
    output, keys := [], [];
    for i := 0 to |walkNew|
      invariant keys == walkNew[..i] && output == FanOut(kind, resource, configs, keys)
    {
      ElemAt(walkNew, i);
      output := output + [ConfigRecord(kind, resource, walkNew[i], Some(configs[walkNew[i]]))];
      keys := keys + [walkNew[i]];
    }
    assert walkNew[..|walkNew|] == walkNew;
    for i := 0 to |walkOld|
      invariant Distinct(keys) && output == FanOut(kind, resource, configs, keys)
      invariant Elems(keys) == configs.Keys + Elems(walkOld[..i])
    {
      assert walkOld[..i + 1] == walkOld[..i] + [walkOld[i]];
      assert Elems(walkOld[..i + 1]) == Elems(walkOld[..i]) + {walkOld[i]};
      if walkOld[i] !in configs {
        assert walkOld[i] !in Elems(walkOld[..i]);
        assert forall k :: k in keys ==> k in Elems(keys);
        assert Elems(keys + [walkOld[i]]) == Elems(keys) + {walkOld[i]};
        output := output + [ConfigRecord(kind, resource, walkOld[i], None)];
        keys := keys + [walkOld[i]];
      }
    }
    assert walkOld[..|walkOld|] == walkOld;
  }

  /** The resource while the fan-out is applied: visited keys as in the new map,
      the rest as in the old one. */
  function Blend(previous: Configs, configs: Configs, visited: seq<Str>): Configs
  {
    map k | k in previous.Keys + configs.Keys && (if k in visited then k in configs else k in previous) ::
      if k in visited then configs[k] else previous[k]
  }

  lemma BlendStep(previous: Configs, configs: Configs, visited: seq<Str>, key: Str)
    requires key in previous.Keys + configs.Keys
    ensures Blend(previous, configs, visited + [key])
         == Merge(Blend(previous, configs, visited), key, KeyValue(configs, key))
  {
    assert forall k :: k in visited + [key] <==> k in visited || k == key;
  }

  lemma BlendNext(previous: Configs, configs: Configs, order: seq<Str>, i: nat)
    requires i < |order| && Elems(order) == configs.Keys + previous.Keys
    ensures Blend(previous, configs, order[..i + 1])
         == Merge(Blend(previous, configs, order[..i]), order[i], KeyValue(configs, order[i]))
  {
    ElemAt(order, i);
    BlendStep(previous, configs, order[..i], order[i]);
    assert order[..i + 1] == order[..i] + [order[i]];
  }

  lemma PutTwice<K, V>(m: map<K, V>, key: K, a: V, b: V)
    ensures m[key := a][key := b] == m[key := b] && (m - {key})[key := b] == m[key := b]
    ensures m[key := a] - {key} == m - {key} && m - {key} - {key} == m - {key}
  {
  }

  lemma PutConfigsTwice(m: map<Str, Configs>, resource: Str, a: Configs, b: Configs)
    ensures PutConfigs(PutConfigs(m, resource, a), resource, b) == PutConfigs(m, resource, b)
  {
    PutTwice(m, resource, a, b);
  }

  lemma WithTableTwice(x: Image, kind: int, m: map<Str, Configs>, m': map<Str, Configs>)
    requires IsWholeMap(kind)
    ensures Table(WithTable(x, kind, m), kind) == m
    ensures WithTable(WithTable(x, kind, m), kind, m') == WithTable(x, kind, m')
  {
  }

  lemma InnerOfPut(m: map<Str, Configs>, resource: Str, a: Configs)
    ensures Inner(PutConfigs(m, resource, a), resource) == a
  {
    if |a| == 0 { assert a == map[]; }
  }

  lemma KeyDecodes(y: Image, kind: int, resource: Str, configs: Configs, key: Str)
    requires IsWholeMap(kind)
    ensures ConfigFromKraft(KeyRecord(kind, resource, configs, key), y)
         == Ok(WholeMap(kind, resource, Merge(Inner(Table(y, kind), resource), key, KeyValue(configs, key))))
  {
  }

  /** A record that replaces the map of a resource, where the image already holds a
      replacement. */
  lemma ReplaceAgain(x: Image, kind: int, resource: Str, m: map<Str, Configs>, held: Configs, merged: Configs)
    requires IsWholeMap(kind)
    ensures var y := WithTable(x, kind, PutConfigs(m, resource, held));
            && Inner(Table(y, kind), resource) == held
            && Apply(y, WholeMap(kind, resource, merged)) == WithTable(x, kind, PutConfigs(m, resource, merged))
  {
    var put := PutConfigs(m, resource, held);
    PutConfigsTwice(m, resource, held, merged);
    WithTableTwice(x, kind, put, PutConfigs(put, resource, merged));
    InnerOfPut(m, resource, held);
    ApplyWholeMap(WithTable(x, kind, put), kind, resource, merged);
  }

  lemma DecodeKey(x: Image, kind: int, resource: Str, m: map<Str, Configs>, held: Configs, configs: Configs, key: Str,
                  merged: Configs, y: Image, z: Image)
    requires IsWholeMap(kind) && merged == Merge(held, key, KeyValue(configs, key))
    requires y == WithTable(x, kind, PutConfigs(m, resource, held))
    requires z == WithTable(x, kind, PutConfigs(m, resource, merged))
    ensures StepsTo(y, KeyRecord(kind, resource, configs, key), z)
  {
    ReplaceAgain(x, kind, resource, m, held, merged);
    KeyDecodes(y, kind, resource, configs, key);
  }

  /** The image while the fan-out is applied, its first `i` keys visited. */
  function Midway(x: Image, kind: int, resource: Str, configs: Configs, order: seq<Str>, i: nat): Image
    requires IsWholeMap(kind) && i <= |order|
  {
    var m := Table(x, kind);
    WithTable(x, kind, PutConfigs(m, resource, Blend(Inner(m, resource), configs, order[..i])))
  }

  lemma MidwayStep(x: Image, kind: int, resource: Str, configs: Configs, order: seq<Str>, i: nat,
                   c: ConfigRecord, y: Image, z: Image)
    requires IsWholeMap(kind) && Elems(order) == configs.Keys + Inner(Table(x, kind), resource).Keys
    requires i < |order| && c == KeyRecord(kind, resource, configs, order[i])
    requires y == Midway(x, kind, resource, configs, order, i) && z == Midway(x, kind, resource, configs, order, i + 1)
    ensures StepsTo(y, c, z)
  {
    var m := Table(x, kind);
    var held, merged := Blend(Inner(m, resource), configs, order[..i]), Blend(Inner(m, resource), configs, order[..i + 1]);
    BlendNext(Inner(m, resource), configs, order, i);
    DecodeKey(x, kind, resource, m, held, configs, order[i], merged, y, z);
  }

  /** After every key is visited the resource holds the new map. */
  lemma BlendEnd(previous: Configs, configs: Configs, order: seq<Str>)
    requires Elems(order) == configs.Keys + previous.Keys
    ensures Blend(previous, configs, order) == configs
  {
    forall k | k in previous.Keys + configs.Keys ensures k in order { assert k in Elems(order); }
  }

  lemma BlendFirst(previous: Configs, configs: Configs, order: seq<Str>)
    requires order != [] && Elems(order) == configs.Keys + previous.Keys
    ensures Blend(previous, configs, order[..1]) == Merge(previous, order[0], KeyValue(configs, order[0]))
  {
    BlendNext(previous, configs, order, 0);
    assert order[..0] == [] && Blend(previous, configs, []) == previous;
  }

  /** The first key meets the table as it was. */
  lemma DecodeFirst(x: Image, kind: int, resource: Str, configs: Configs, key: Str, merged: Configs, z: Image)
    requires IsWholeMap(kind) && merged == Merge(Inner(Table(x, kind), resource), key, KeyValue(configs, key))
    requires z == WithTable(x, kind, PutConfigs(Table(x, kind), resource, merged))
    ensures StepsTo(x, KeyRecord(kind, resource, configs, key), z)
  {
    KeyDecodes(x, kind, resource, configs, key);
    ApplyWholeMap(x, kind, resource, merged);
  }

  lemma FirstStep(x: Image, kind: int, resource: Str, configs: Configs, order: seq<Str>, c: ConfigRecord, z: Image)
    requires IsWholeMap(kind) && Elems(order) == configs.Keys + Inner(Table(x, kind), resource).Keys
    requires order != [] && c == KeyRecord(kind, resource, configs, order[0])
    requires z == Midway(x, kind, resource, configs, order, 1)
    ensures StepsTo(x, c, z)
  {
    var previous := Inner(Table(x, kind), resource);
    var merged := Blend(previous, configs, order[..1]);
    BlendFirst(previous, configs, order);
    DecodeFirst(x, kind, resource, configs, order[0], merged, z);
  }

  lemma WithSameTable(x: Image, kind: int)
    requires IsWholeMap(kind)
    ensures WithTable(x, kind, Table(x, kind)) == x
  {
  }

  /** No key to send: the image stays, and a resource that is stored empty with it. */
  lemma NothingToSend(x: Image, kind: int, resource: Str, configs: Configs)
    requires IsWholeMap(kind) && configs.Keys == {}
    ensures Apply(x, WholeMap(kind, resource, configs)) == x <==> resource !in Table(x, kind)
  {
    var m := Table(x, kind);
    assert |configs| == 0;
    ApplyWholeMap(x, kind, resource, configs);
    WithSameTable(x, kind);
    if resource !in m { assert m - {resource} == m; }
    assert Table(WithTable(x, kind, m - {resource}), kind) == m - {resource};
  }

  lemma AllSentIsReplaced(x: Image, kind: int, resource: Str, configs: Configs, order: seq<Str>)
    requires IsWholeMap(kind) && Elems(order) == configs.Keys + Inner(Table(x, kind), resource).Keys
    ensures Midway(x, kind, resource, configs, order, |order|) == Apply(x, WholeMap(kind, resource, configs))
  {
    assert order[..|order|] == order;
    BlendEnd(Inner(Table(x, kind), resource), configs, order);
    ApplyWholeMap(x, kind, resource, configs);
  }

  lemma DecodeStages(x: Image, cs: seq<ConfigRecord>, st: nat -> Image, z: Image)
    requires st(0) == x && st(|cs|) == z && forall i: nat :: Leads(cs, st, i)
    ensures DecodeAll(x, cs) == Ok(z)
  {
    DecodeSteps(cs, st, 0);
    assert cs[0..] == cs;
  }

  ghost function Stages(x: Image, kind: int, resource: Str, configs: Configs, order: seq<Str>): (st: nat -> Image)
    requires IsWholeMap(kind)
    ensures st(0) == x
    ensures forall i :: 0 < i <= |order| ==> st(i) == Midway(x, kind, resource, configs, order, i)
  {
    (i: nat) => if 0 < i <= |order| then Midway(x, kind, resource, configs, order, i) else x
  }

  lemma AllAreSent(x: Image, kind: int, resource: Str, configs: Configs, order: seq<Str>)
    requires IsWholeMap(kind) && order != []
    requires Elems(order) == configs.Keys + Inner(Table(x, kind), resource).Keys
    ensures DecodeAll(x, FanOut(kind, resource, configs, order)) == Ok(Midway(x, kind, resource, configs, order, |order|))
  {
    var cs, st := FanOut(kind, resource, configs, order), Stages(x, kind, resource, configs, order);
    forall i: nat ensures Leads(cs, st, i) {
      if i == 0 { FirstStep(x, kind, resource, configs, order, cs[0], st(1)); }
      else if i < |cs| { MidwayStep(x, kind, resource, configs, order, i, cs[i], st(i), st(i + 1)); }
    }
    DecodeStages(x, cs, st, st(|cs|));
  }

  /** Sent key by key, in any order, a whole-map replacement means what it means
      applied directly: the resource holds exactly the new map (and is absent
      when that is empty), and nothing else in the image changes. The one case
      that differs is the clearing of a resource that is stored empty: no key, so
      no record. No log stores one (`ImageInvariants.AnyLog`). */
  lemma FanOutMeansReplace(x: Image, kind: int, resource: Str, configs: Configs, order: seq<Str>)
    requires IsWholeMap(kind)
    requires Enumerates(order, configs.Keys + Inner(Table(x, kind), resource).Keys)
    ensures DecodeAll(x, FanOut(kind, resource, configs, order)) == Ok(Apply(x, WholeMap(kind, resource, configs)))
            <==> !(resource in Table(x, kind) && order == [])
  {
    if order == [] {
      assert Elems(order) == {};
      NothingToSend(x, kind, resource, configs);
    } else {
      AllAreSent(x, kind, resource, configs, order);
      AllSentIsReplaced(x, kind, resource, configs, order);
    }
  }
}
