/**
  Discovery topics (`discovery/publisher.py`) and the warm-start cache (`cache/disk_cache.py`): under
  which retained topic an entity is published, what the cache remembers of it, and which topics are
  emptied from the reloaded cache at boot.
 */
module DiscoveryTopics {
  import opened Prelude
  import opened Decimal

  // ---------------------------------------------------------------------------------------
  // Names
  // ---------------------------------------------------------------------------------------

  /** Node of an equipment: `jeedom2ha_{eq_id}`. */
  function EqNode(eqId: int): string { "jeedom2ha_" + IntText(eqId) }

  /** Node of one command of an equipment: `jeedom2ha_{eq_id}_{cmd_id}`. */
  function CmdNode(eqId: int, cmdId: int): string { EqNode(eqId) + "_" + IntText(cmdId) }

  predicate NoSlash(s: string) { '/' !in s }

  lemma {:induction false} CutAtUnderscore(a: string, b: string, c: string, d: string)
    requires a + "_" + b == c + "_" + d && '_' !in a && '_' !in c
    ensures a == c && b == d
  {
    assert (a + "_" + b)[0] == (c + "_" + d)[0];
    if a == "" || c == "" {
      assert (a + "_" + b)[1..] == (c + "_" + d)[1..];
      assert ("" + "_" + b)[1..] == b && ("" + "_" + d)[1..] == d;
    } else {
      assert (a + "_" + b)[1..] == a[1..] + "_" + b && (c + "_" + d)[1..] == c[1..] + "_" + d;
      CutAtUnderscore(a[1..], b, c[1..], d);
      assert a == [a[0]] + a[1..] && c == [c[0]] + c[1..];
    }
  }

  lemma NoUnderscore(n: int)
    ensures '_' !in IntText(n)
  {
  }

  lemma NodesHaveNoSlash(eqId: int, cmdId: int)
    ensures NoSlash(EqNode(eqId)) && NoSlash(CmdNode(eqId, cmdId))
  {
  }

  /** Without the common beginning of every node. */
  lemma NodeTails(e: int, c: int)
    ensures EqNode(e)[10..] == IntText(e) && CmdNode(e, c)[10..] == IntText(e) + "_" + IntText(c)
  {
  }

  lemma EqNodeIsNoCmdNode(e: int, e': int, c': int)
    ensures EqNode(e) != CmdNode(e', c')
  {
    hide IntText;
    NodeTails(e, 0);
    NodeTails(e', c');
    NoUnderscore(e);
    assert (IntText(e') + "_" + IntText(c'))[|IntText(e')|] == '_';
  }

  /** Nodes tell equipments and commands apart, and a command node is never an equipment node. */
  lemma NodesAreInjective(e: int, c: int, e': int, c': int)
    ensures EqNode(e) == EqNode(e') ==> e == e'
    ensures CmdNode(e, c) == CmdNode(e', c') ==> e == e' && c == c'
    ensures EqNode(e) != CmdNode(e', c')
  {
    hide IntText, EqNode, CmdNode;
    NodeTails(e, c);
    NodeTails(e', c');
    EqNodeIsNoCmdNode(e, e', c');
    if EqNode(e) == EqNode(e') {
      IntTextInjective(e, e');
    }
    if CmdNode(e, c) == CmdNode(e', c') {
      NoUnderscore(e);
      NoUnderscore(e');
      CutAtUnderscore(IntText(e), IntText(c), IntText(e'), IntText(c'));
      IntTextInjective(e, e');
      IntTextInjective(c, c');
    }
  }

  // ---------------------------------------------------------------------------------------
  // Topics
  // ---------------------------------------------------------------------------------------

  /** What publishing reads of a mapping. `nodeId` is None when `reason_details` holds no string for it. */
  datatype Published = Published(haType: string, eqId: int, nodeId: Option<string>)

  /** The publishers that read `node_id`; the others always use the equipment's node. */
  predicate NodeAware(haType: string) {
    haType == "switch" || haType == "sensor" || haType == "binary_sensor" || haType == "button"
  }

  function Topic(prefix: string, haType: string, path: string): string {
    prefix + "/" + haType + "/" + path + "/config"
  }

  /** `_build_topic`: an absent or empty node stands for the equipment's. */
  function BuildTopic(prefix: string, eqId: int, haType: string, nodeId: Option<string>): string {
    Topic(prefix, haType, if nodeId.Some? && nodeId.value != "" then nodeId.value else EqNode(eqId))
  }

  /** The topic the `publish_*` method of the entity's type uses. */
  function PublishTopic(prefix: string, e: Published): string {
    BuildTopic(prefix, e.eqId, e.haType, if NodeAware(e.haType) then e.nodeId else None)
  }

  /** The topic of an entity: its own node for the four types that read it, the equipment's otherwise. */
  lemma PublishTopicMeaning(prefix: string, e: Published)
    ensures var ownNode :=
      e.haType in {"switch", "sensor", "binary_sensor", "button"} && e.nodeId.Some? && e.nodeId.value != "";
      PublishTopic(prefix, e)
      == prefix + "/" + e.haType + "/" + (if ownNode then e.nodeId.value else "jeedom2ha_" + IntText(e.eqId))
        + "/config"
  {
  }

  lemma {:induction false} CutAtSlash(a: string, b: string, c: string, d: string)
    requires a + "/" + b == c + "/" + d && NoSlash(a) && NoSlash(c)
    ensures a == c && b == d
  {
    assert (a + "/" + b)[0] == (c + "/" + d)[0];
    if a == "" || c == "" {
      assert (a + "/" + b)[1..] == (c + "/" + d)[1..];
      assert ("" + "/" + b)[1..] == b && ("" + "/" + d)[1..] == d;
    } else {
      assert (a + "/" + b)[1..] == a[1..] + "/" + b && (c + "/" + d)[1..] == c[1..] + "/" + d;
      CutAtSlash(a[1..], b, c[1..], d);
      assert a == [a[0]] + a[1..] && c == [c[0]] + c[1..];
    }
  }

  lemma TopicIsInjective(prefix: string, t: string, p: string, t': string, p': string)
    requires NoSlash(t) && NoSlash(t') && NoSlash(p) && NoSlash(p')
    requires Topic(prefix, t, p) == Topic(prefix, t', p')
    ensures t == t' && p == p'
  {
    var rest, rest' := t + "/" + (p + "/" + "config"), t' + "/" + (p' + "/" + "config");
    assert Topic(prefix, t, p) == prefix + ("/" + rest) && Topic(prefix, t', p') == prefix + ("/" + rest');
    assert (prefix + ("/" + rest))[|prefix| + 1..] == rest && (prefix + ("/" + rest'))[|prefix| + 1..] == rest';
    CutAtSlash(t, p + "/" + "config", t', p' + "/" + "config");
    CutAtSlash(p, "config", p', "config");
  }

  function PublishTopics(prefix: string, es: seq<Published>): set<string> { set e | e in es :: PublishTopic(prefix, e) }

  // ---------------------------------------------------------------------------------------
  // What the cache remembers
  // ---------------------------------------------------------------------------------------

  /** An element of the persisted `node_ids`. */
  datatype Json = JString(s: string) | JObject(haType: Option<string>, nodeId: Option<string>)
    | JList(items: seq<string>) | JOther

  function NodeOf(e: Published): Option<string> { if e.nodeId.Some? && e.nodeId.value != "" then e.nodeId else None }

  predicate Heterogeneous(es: seq<Published>) { exists i, j :: 0 <= i < j < |es| && es[i].haType != es[j].haType }

  function TypedEntries(es: seq<Published>): seq<Json> {
    seq(|es|, i requires 0 <= i < |es| =>
      JObject(Some(es[i].haType), Some(if NodeOf(es[i]).Some? then NodeOf(es[i]).value else EqNode(es[i].eqId))))
  }

  function PlainEntries(es: seq<Published>): seq<Json> {
    if es == [] then []
    else PlainEntries(es[..|es|-1]) + if NodeOf(es[|es|-1]).Some? then [JString(NodeOf(es[|es|-1]).value)] else []
  }

  /** `_extract_node_ids`, for the primary followed by its secondaries. */
  function ExtractNodeIds(es: seq<Published>): seq<Json> {
    if Heterogeneous(es) then TypedEntries(es) else PlainEntries(es)
  }

  /** Several types keep a type beside each node; one type keeps the nodes that there are, in order. */
  lemma ExtractMeaning(es: seq<Published>)
    ensures (exists i, j :: 0 <= i < j < |es| && es[i].haType != es[j].haType) ==>
      && |ExtractNodeIds(es)| == |es|
      && forall i :: 0 <= i < |es| ==> ExtractNodeIds(es)[i] == JObject(Some(es[i].haType),
           Some(if es[i].nodeId.Some? && es[i].nodeId.value != "" then es[i].nodeId.value else EqNode(es[i].eqId)))
    ensures (forall i, j :: 0 <= i < j < |es| ==> es[i].haType == es[j].haType) ==>
      && (forall j :: j in ExtractNodeIds(es) ==> j.JString? && j.s != "")
      && (forall node :: node != "" ==>
            (JString(node) in ExtractNodeIds(es) <==> exists i :: 0 <= i < |es| && es[i].nodeId == Some(node)))
  {
    PlainMeaning(es);
  }

  lemma {:induction false} PlainMeaning(es: seq<Published>)
    ensures forall j :: j in PlainEntries(es) ==> j.JString? && j.s != ""
    ensures forall node :: node != "" ==>
      (JString(node) in PlainEntries(es) <==> exists i :: 0 <= i < |es| && es[i].nodeId == Some(node))
  {
    if es != [] {
      var front, last := es[..|es|-1], es[|es|-1];
      PlainMeaning(front);
      assert forall node :: (exists i :: 0 <= i < |es| && es[i].nodeId == Some(node)) <==>
               (exists i :: 0 <= i < |front| && front[i].nodeId == Some(node)) || last.nodeId == Some(node);
    }
  }

  /** An element of `node_ids` after loading: a node of the call's type, or a node with its own type. */
  datatype NodeRef = Plain(node: string) | Typed(haType: string, node: string)

  /** `_normalize_loaded_node_ids`, one element: malformed ones are skipped. */
  function Normalize(j: Json): Option<NodeRef> {
    match j
    case JString(s) => if s != "" then Some(Plain(s)) else None
    case JObject(t, n) => if t.GetOr("") != "" && n.GetOr("") != "" then Some(Typed(t.GetOr(""), n.GetOr(""))) else None
    case JList(items) => if |items| == 2 && items[0] != "" && items[1] != "" then Some(Typed(items[0], items[1]))
      else None
    case JOther => None
  }

  /** What is read of an element: a text, an object or a pair, none of whose parts is empty. */
  lemma NormalizeMeaning(j: Json)
    ensures match j
      case JString(s) => (Normalize(j).Some? <==> s != "") && (s != "" ==> Normalize(j) == Some(Plain(s)))
      case JObject(t, n) =>
        && (Normalize(j).Some? <==> t.Some? && t.value != "" && n.Some? && n.value != "")
        && (Normalize(j).Some? ==> Normalize(j) == Some(Typed(t.value, n.value)))
      case JList(items) =>
        && (Normalize(j).Some? <==> |items| == 2 && "" !in items)
        && (Normalize(j).Some? ==> Normalize(j) == Some(Typed(items[0], items[1])))
      case JOther => Normalize(j).None?
  {
  }

  function NormalizeAll(js: seq<Json>): seq<NodeRef> {
    if js == [] then []
    else NormalizeAll(js[..|js|-1]) + if Normalize(js[|js|-1]).Some? then [Normalize(js[|js|-1]).value] else []
  }

  // ---------------------------------------------------------------------------------------
  // What is emptied
  // ---------------------------------------------------------------------------------------

  function RefTopic(prefix: string, eqId: int, haType: string, ref: NodeRef): string {
    match ref
    case Plain(node) => BuildTopic(prefix, eqId, haType, Some(node))
    case Typed(t, node) => BuildTopic(prefix, eqId, t, Some(node))
  }

  /** The list of topics `unpublish_by_eq_id` goes through. */
  function UnpublishTopics(prefix: string, eqId: int, haType: string, refs: seq<NodeRef>): seq<string> {
    if refs == [] then [BuildTopic(prefix, eqId, haType, None)]
    else seq(|refs|, i requires 0 <= i < |refs| => RefTopic(prefix, eqId, haType, refs[i]))
  }

  /** What is emptied at boot for the equipment whose entities `es` were saved. */
  function BootTopics(prefix: string, es: seq<Published>): set<string>
    requires es != []
  {
    set t | t in UnpublishTopics(prefix, es[0].eqId, es[0].haType, NormalizeAll(ExtractNodeIds(es)))
  }

  /** Entities of one equipment, under usable names. */
  predicate OfEquipment(es: seq<Published>, eqId: int) {
    forall i :: 0 <= i < |es| ==>
      && es[i].eqId == eqId && es[i].haType != "" && NoSlash(es[i].haType)
      && (NodeOf(es[i]).Some? ==> NoSlash(NodeOf(es[i]).value) && NodeOf(es[i]).value != EqNode(eqId))
  }

  /**
    What the cache relies on: a node is only carried by an entity whose type publishes under it, and
    entities of a single type either all carry one or none does.
  */
  predicate NodesFit(es: seq<Published>) {
    && (forall i :: 0 <= i < |es| && NodeOf(es[i]).Some? ==> NodeAware(es[i].haType))
    && (!Heterogeneous(es) ==> forall i, j :: 0 <= i < |es| && 0 <= j < |es| && NodeOf(es[i]).Some? ==>
       NodeOf(es[j]).Some?)
  }

  lemma NormalizeAppend(js: seq<Json>, j: Json)
    ensures NormalizeAll(js + [j]) == NormalizeAll(js) + if Normalize(j).Some? then [Normalize(j).value] else []
  {
  }

  lemma {:induction false} NormalizedPlain(es: seq<Published>)
    ensures NormalizeAll(PlainEntries(es)) == PlainRefs(es)
  {
    hide NormalizeAll;
    if es == [] {
      assert NormalizeAll([]) == [] by { NothingToNormalize(); }
    } else {
      NormalizedPlain(es[..|es|-1]);
      var last := es[|es|-1];
      if NodeOf(last).Some? {
        NormalizeAppend(PlainEntries(es[..|es|-1]), JString(NodeOf(last).value));
      } else {
        assert PlainEntries(es) == PlainEntries(es[..|es|-1]);
      }
    }
  }

  lemma NothingToNormalize()
    ensures NormalizeAll([]) == []
  {
  }

  function PlainRefs(es: seq<Published>): (r: seq<NodeRef>) {
    if es == [] then []
    else PlainRefs(es[..|es|-1]) + if NodeOf(es[|es|-1]).Some? then [Plain(NodeOf(es[|es|-1]).value)] else []
  }

  lemma {:induction false} PlainRefMembers(es: seq<Published>)
    ensures forall i :: 0 <= i < |es| && NodeOf(es[i]).Some? ==> Plain(NodeOf(es[i]).value) in PlainRefs(es)
    ensures forall r :: r in PlainRefs(es) ==>
      exists i :: 0 <= i < |es| && NodeOf(es[i]).Some? && r == Plain(NodeOf(es[i]).value)
    ensures PlainRefs(es) == [] <==> forall i :: 0 <= i < |es| ==> NodeOf(es[i]).None?
  {
    if es != [] {
      var front, last := es[..|es|-1], es[|es|-1];
      PlainRefMembers(front);
      assert PlainRefs(es) == PlainRefs(front) + if NodeOf(last).Some? then [Plain(NodeOf(last).value)] else [];
      assert forall i :: 0 <= i < |front| ==> front[i] == es[i];
      hide NodeOf, PlainRefs;
      forall r | r in PlainRefs(front)
        ensures exists i :: 0 <= i < |es| && NodeOf(es[i]).Some? && r == Plain(NodeOf(es[i]).value)
      {
        var i :| 0 <= i < |front| && NodeOf(front[i]).Some? && r == Plain(NodeOf(front[i]).value);
        assert NodeOf(es[i]).Some?;
      }
    }
  }

  function TypedRefs(es: seq<Published>): seq<NodeRef> {
    seq(|es|, i requires 0 <= i < |es| => Typed(es[i].haType,
      if NodeOf(es[i]).Some? then NodeOf(es[i]).value else EqNode(es[i].eqId)))
  }

  lemma {:induction false} NormalizedTyped(es: seq<Published>)
    requires forall i :: 0 <= i < |es| ==> es[i].haType != ""
    ensures NormalizeAll(TypedEntries(es)) == TypedRefs(es)
  {
    hide NormalizeAll, EqNode;
    if es == [] {
      NothingToNormalize();
      assert TypedEntries(es) == [] && TypedRefs(es) == [];
    } else {
      var front, n := es[..|es|-1], |es| - 1;
      NormalizedTyped(front);
      NormalizeAppend(TypedEntries(front), TypedEntries(es)[n]);
      assert TypedEntries(es) == TypedEntries(front) + [TypedEntries(es)[n]];
      assert TypedRefs(es) == TypedRefs(front) + [TypedRefs(es)[n]];
      EqNodeIsNotEmpty(es[n].eqId);
    }
  }

  lemma EqNodeIsNotEmpty(eqId: int)
    ensures EqNode(eqId) != ""
  {
  }

  // ---------------------------------------------------------------------------------------
  // Emptied exactly what was published
  // ---------------------------------------------------------------------------------------

  /** The path an entity is published under. */
  function PathOf(e: Published): string {
    if NodeAware(e.haType) && NodeOf(e).Some? then NodeOf(e).value else EqNode(e.eqId)
  }

  /** The path under which the reloaded cache empties a node. */
  function CachedPath(e: Published): string { if NodeOf(e).Some? then NodeOf(e).value else EqNode(e.eqId) }

  lemma PublishPath(prefix: string, e: Published)
    ensures PublishTopic(prefix, e) == Topic(prefix, e.haType, PathOf(e))
  {
  }

  /** Entities of several types: every entity is emptied, under its own type. */
  lemma HeterogeneousBoot(prefix: string, es: seq<Published>, eqId: int)
    requires es != [] && OfEquipment(es, eqId) && Heterogeneous(es)
    ensures forall t :: t in BootTopics(prefix, es) <==>
      exists i :: 0 <= i < |es| && t == Topic(prefix, es[i].haType, CachedPath(es[i]))
  {
    hide EqNode, Topic, TypedEntries, NormalizeAll;
    NormalizedTyped(es);
    EqNodeIsNotEmpty(eqId);
    var refs := TypedRefs(es);
    var topics := UnpublishTopics(prefix, es[0].eqId, es[0].haType, refs);
    assert |topics| == |es|;
    forall i | 0 <= i < |es| ensures topics[i] == Topic(prefix, es[i].haType, CachedPath(es[i])) {
      assert refs[i] == Typed(es[i].haType, CachedPath(es[i]));
    }
    assert forall t :: t in BootTopics(prefix, es) <==> t in topics;
  }

  /** Entities of one type: the nodes that are carried, or the equipment's node when none is. */
  lemma HomogeneousBoot(prefix: string, es: seq<Published>, eqId: int)
    requires es != [] && OfEquipment(es, eqId) && !Heterogeneous(es)
    ensures (exists i :: 0 <= i < |es| && NodeOf(es[i]).Some?) ==>
      forall t :: t in BootTopics(prefix, es) <==>
        exists i :: 0 <= i < |es| && NodeOf(es[i]).Some? && t == Topic(prefix, es[i].haType, NodeOf(es[i]).value)
    ensures !(exists i :: 0 <= i < |es| && NodeOf(es[i]).Some?) ==>
      BootTopics(prefix, es) == {Topic(prefix, es[0].haType, EqNode(eqId))}
  {
    hide EqNode, Topic, PlainEntries, NormalizeAll;
    NormalizedPlain(es);
    PlainRefMembers(es);
    var refs := PlainRefs(es);
    var topics := UnpublishTopics(prefix, es[0].eqId, es[0].haType, refs);
    assert forall i :: 0 <= i < |es| ==> es[i].haType == es[0].haType;
    assert forall t :: t in BootTopics(prefix, es) <==> t in topics;
    if i :| 0 <= i < |es| && NodeOf(es[i]).Some? {
      assert refs != [] by { assert Plain(NodeOf(es[i]).value) in refs; }
      assert |topics| == |refs| && forall k :: 0 <= k < |refs| ==>
        topics[k] == RefTopic(prefix, eqId, es[0].haType, refs[k]);
      forall t | t in topics
        ensures exists i ::
        0 <= i < |es| && NodeOf(es[i]).Some? && t == Topic(prefix, es[i].haType, NodeOf(es[i]).value)
      {
        var k :| 0 <= k < |topics| && topics[k] == t;
        assert refs[k] in refs;
      }
      forall i | 0 <= i < |es| && NodeOf(es[i]).Some? ensures Topic(prefix, es[i].haType, NodeOf(es[i]).value) in topics
      {
        var k :| 0 <= k < |refs| && refs[k] == Plain(NodeOf(es[i]).value);
        assert topics[k] == Topic(prefix, es[i].haType, NodeOf(es[i]).value);
      }
    }
  }

  /** The topics emptied at boot are those the entities were published under, exactly when nodes fit. */
  lemma BootEmptiesWhatWasPublished(prefix: string, es: seq<Published>, eqId: int)
    requires es != [] && OfEquipment(es, eqId)
    ensures BootTopics(prefix, es) == PublishTopics(prefix, es) <==> NodesFit(es)
  {
    hide EqNode, BootTopics, BuildTopic;
    var boot, published := BootTopics(prefix, es), PublishTopics(prefix, es);
    forall i | 0 <= i < |es| ensures PublishTopic(prefix, es[i]) == Topic(prefix, es[i].haType, PathOf(es[i])) {
      PublishPath(prefix, es[i]);
    }
    assert forall t :: t in published <==> exists i :: 0 <= i < |es| && t == Topic(prefix, es[i].haType, PathOf(es[i]));
    if Heterogeneous(es) {
      HeterogeneousBoot(prefix, es, eqId);
    } else {
      HomogeneousBoot(prefix, es, eqId);
    }
    if NodesFit(es) {
      assert boot == published;
    } else {
      UnfitNodesDiffer(prefix, es, eqId);
    }
  }

  /** A topic under a node that an entity's type does not publish under was never published. */
  lemma NodeNotPublished(prefix: string, es: seq<Published>, eqId: int, i: nat)
    requires OfEquipment(es, eqId) && i < |es| && NodeOf(es[i]).Some? && !NodeAware(es[i].haType)
    ensures Topic(prefix, es[i].haType, NodeOf(es[i]).value) !in PublishTopics(prefix, es)
  {
    hide EqNode;
    forall j | 0 <= j < |es| ensures PublishTopic(prefix, es[j]) != Topic(prefix, es[i].haType, NodeOf(es[i]).value) {
      PublishPath(prefix, es[j]);
      NodesHaveNoSlash(eqId, 0);
      if PublishTopic(prefix, es[j]) == Topic(prefix, es[i].haType, NodeOf(es[i]).value) {
        TopicIsInjective(prefix, es[j].haType, PathOf(es[j]), es[i].haType, NodeOf(es[i]).value);
      }
    }
  }

  lemma UnfitNodesDiffer(prefix: string, es: seq<Published>, eqId: int)
    requires es != [] && OfEquipment(es, eqId) && !NodesFit(es)
    ensures BootTopics(prefix, es) != PublishTopics(prefix, es)
  {
    hide EqNode, BootTopics, BuildTopic;
    if Heterogeneous(es) {
      HeterogeneousBoot(prefix, es, eqId);
    } else {
      HomogeneousBoot(prefix, es, eqId);
    }
    if i :| 0 <= i < |es| && NodeOf(es[i]).Some? && !NodeAware(es[i].haType) {
      NodeNotPublished(prefix, es, eqId, i);
      assert Topic(prefix, es[i].haType, NodeOf(es[i]).value) in BootTopics(prefix, es);
    } else {
      var i, j :| 0 <= i < |es| && 0 <= j < |es| && NodeOf(es[i]).Some? && NodeOf(es[j]).None?;
      var t := Topic(prefix, es[j].haType, EqNode(eqId));
      PublishPath(prefix, es[j]);
      assert t in PublishTopics(prefix, es);
      NodesHaveNoSlash(eqId, 0);
      forall k | 0 <= k < |es| && NodeOf(es[k]).Some? ensures t != Topic(prefix, es[k].haType, NodeOf(es[k]).value) {
        if t == Topic(prefix, es[k].haType, NodeOf(es[k]).value) {
          TopicIsInjective(prefix, es[j].haType, EqNode(eqId), es[k].haType, NodeOf(es[k]).value);
        }
      }
    }
  }
}
