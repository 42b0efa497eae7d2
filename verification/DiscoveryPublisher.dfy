/**
  The publisher and the cache at work: retained messages are set by publishing and deleted by an empty
  payload (section 3.3.1.3 of MQTT Version 3.1.1); a publication may fail at any call.
 */
module DiscoveryPublisher {
  import opened Prelude
  import opened Decimal
  import opened DiscoveryTopics

  // ---------------------------------------------------------------------------------------
  // The cache file
  // ---------------------------------------------------------------------------------------

  /**
    What is saved for one equipment: the entities, whose first is the primary, and the name and area of the primary.
    `entities` is empty when the decision has no mapping.
  */
  datatype Publication =
    Publication(entities: seq<Published>, haName: string, area: Option<string>, published: bool,
      secondariesPublished: bool)

  /** A value of the file.  Older files lack the name, the area or the nodes; a missing area reads as a null one. */
  datatype Stored =
    | StoredEntry(haType: string, haName: Option<string>, area: Option<string>, published: bool,
      secondariesPublished: bool,
                  nodeIds: Option<seq<Json>>)
    | NotAnObject

  datatype Loaded =
    Loaded(haType: string, haName: string, area: Option<string>, published: bool, secondariesPublished: bool,
      nodes: seq<NodeRef>)

  function PrimaryType(p: Publication): string { if p.entities == [] then "" else p.entities[0].haType }

  function PrimaryName(p: Publication): string { if p.entities == [] then "" else p.haName }

  function PrimaryArea(p: Publication): Option<string> { if p.entities == [] then None else p.area }

  function StoredOf(p: Publication): Stored {
    StoredEntry(PrimaryType(p), Some(PrimaryName(p)), PrimaryArea(p), p.published, p.secondariesPublished,
                Some(ExtractNodeIds(p.entities)))
  }

  function LoadedOf(p: Publication): Loaded {
    Loaded(PrimaryType(p), PrimaryName(p), PrimaryArea(p), p.published, p.secondariesPublished,
           NormalizeAll(ExtractNodeIds(p.entities)))
  }

  /** `_extract_node_ids`. */
  method ExtractNodes(es: seq<Published>) returns (r: seq<Json>)
    ensures r == ExtractNodeIds(es)
  {
    hide EqNode;
    r := [];
    if Heterogeneous(es) {
      for i := 0 to |es|
        invariant r == TypedEntries(es)[..i]
      {
        r := r + [JObject(Some(es[i].haType),
          Some(if NodeOf(es[i]).Some? then NodeOf(es[i]).value else EqNode(es[i].eqId)))];
      }
    } else {
      for i := 0 to |es|
        invariant r == PlainEntries(es[..i])
      {
        assert es[..i+1][..i] == es[..i];
        if NodeOf(es[i]).Some? {
          r := r + [JString(NodeOf(es[i]).value)];
        }
      }
      assert es[..|es|] == es;
    }
  }

  /** `_normalize_loaded_node_ids`; None stands for anything that is not a list. */
  method NormalizeLoaded(raw: Option<seq<Json>>) returns (r: seq<NodeRef>)
    ensures r == if raw.None? then [] else NormalizeAll(raw.value)
  {
    r := [];
    if raw.Some? {
      var js := raw.value;
      for i := 0 to |js|
        invariant r == NormalizeAll(js[..i])
      {
        assert js[..i+1][..i] == js[..i];
        if Normalize(js[i]).Some? {
          r := r + [Normalize(js[i]).value];
        }
      }
      assert js[..|js|] == js;
    }
  }

  /** The file written for the publications, as its members in order. */
  method SaveCache(items: seq<(int, Publication)>) returns (file: seq<(string, Stored)>)
    requires DistinctKeys(items)
    ensures |file| == |items| && forall i :: 0 <= i < |items| ==> file[i] == (IntText(items[i].0), StoredOf(items[i].1))
  {
    hide ExtractNodeIds, IntText;
    file := [];
    for i := 0 to |items|
      invariant |file| == i && forall k :: 0 <= k < i ==> file[k] == (IntText(items[k].0), StoredOf(items[k].1))
    {
      var p := items[i].1;
      var nodes := ExtractNodes(p.entities);
      var haType, haName, area := "", "", None;
      if p.entities != [] {
        haType, haName, area := p.entities[0].haType, p.haName, p.area;
      }
      var stored := StoredEntry(haType, Some(haName), area, p.published, p.secondariesPublished, Some(nodes));
      file := file + [(IntText(items[i].0), stored)];
    }
  }

  predicate Kept(m: (string, Stored)) { ParseInt(m.0).Some? && m.1.StoredEntry? }

  function IdOf(m: (string, Stored)): int
    requires Kept(m)
  {
    ParseInt(m.0).value
  }

  function Read(s: Stored): Loaded
    requires s.StoredEntry?
  {
    Loaded(s.haType, s.haName.GetOr(""), s.area, s.published, s.secondariesPublished,
           if s.nodeIds.None? then [] else NormalizeAll(s.nodeIds.value))
  }

  /** Members whose key is no integer, or whose value is no object, are skipped; a later key replaces an equal one. */
  function LoadAll(file: seq<(string, Stored)>): map<int, Loaded> {
    if file == [] then map[]
    else
      var front, last := LoadAll(file[..|file|-1]), file[|file|-1];
      if Kept(last) then front[IdOf(last) := Read(last.1)] else front
  }

  method LoadCache(file: seq<(string, Stored)>) returns (r: map<int, Loaded>)
    ensures r == LoadAll(file)
  {
    hide ParseInt, NormalizeAll;
    r := map[];
    for i := 0 to |file|
      invariant r == LoadAll(file[..i])
    {
      assert file[..i+1][..i] == file[..i];
      var (key, value) := file[i];
      var id := ParseInt(key);
      if id.Some? && value.StoredEntry? {
        var nodes := NormalizeLoaded(value.nodeIds);
        var name := if value.haName.Some? then value.haName.value else "";
        r := r[id.value := Loaded(value.haType, name, value.area, value.published, value.secondariesPublished, nodes)];
      }
    }
    assert file[..|file|] == file;
  }

  /** With distinct identifiers, what is loaded is what was saved, with its nodes normalised and nothing else. */
  lemma {:induction false} LoadedIsSaved(items: seq<(int, Publication)>, file: seq<(string, Stored)>)
    requires DistinctKeys(items) && |file| == |items|
    requires forall i :: 0 <= i < |items| ==> file[i] == (IntText(items[i].0), StoredOf(items[i].1))
    ensures forall i :: 0 <= i < |items| ==>
      items[i].0 in LoadAll(file) && LoadAll(file)[items[i].0] == LoadedOf(items[i].1)
    ensures forall id :: id in LoadAll(file) ==> exists i :: 0 <= i < |items| && items[i].0 == id
  {
    hide ParseInt, IntText, NormalizeAll, ExtractNodeIds;
    if items != [] {
      var n := |items| - 1;
      LoadedIsSaved(items[..n], file[..n]);
      ParseIntText(items[n].0);
      assert Kept(file[n]) && IdOf(file[n]) == items[n].0;
    }
  }

  /** What is kept of the primary, when there is one, and of the flags. */
  predicate KeepsPrimary(e: Loaded, p: Publication) {
    && e.published == p.published && e.secondariesPublished == p.secondariesPublished
    && (p.entities != [] ==> e.haType == p.entities[0].haType && e.haName == p.haName && e.area == p.area)
    && (p.entities == [] ==> e.haType == "" && e.haName == "" && e.area.None? && e.nodes == [])
  }

  /** Saved, then loaded by the next daemon. */
  method SaveThenLoad(items: seq<(int, Publication)>) returns (r: map<int, Loaded>)
    requires DistinctKeys(items)
    ensures forall i :: 0 <= i < |items| ==> items[i].0 in r && r[items[i].0] == LoadedOf(items[i].1)
    ensures forall id :: id in r ==> exists i :: 0 <= i < |items| && items[i].0 == id
    ensures forall i :: 0 <= i < |items| ==> KeepsPrimary(r[items[i].0], items[i].1)
  {
    var file := SaveCache(items);
    r := LoadCache(file);
    LoadedIsSaved(items, file);
  }

  // ---------------------------------------------------------------------------------------
  // Retained messages
  // ---------------------------------------------------------------------------------------

  type Retained = map<string, string>

  /** A retained publication: an empty payload deletes the message of the topic. */
  function Deliver(r: Retained, topic: string, payload: string): Retained {
    if payload == "" then r - {topic} else r[topic := payload]
  }

  /** A payload is what the topic retains, an empty one nothing; other topics keep theirs. */
  lemma DeliverMeaning(r: Retained, topic: string, payload: string, other: string)
    ensures topic in Deliver(r, topic, payload) <==> payload != ""
    ensures payload != "" ==> Deliver(r, topic, payload)[topic] == payload
    ensures other != topic ==> (other in Deliver(r, topic, payload) <==> other in r)
    ensures other != topic && other in r ==> Deliver(r, topic, payload)[other] == r[other]
  {
  }

  class Publisher {
    const prefix: string
    /** What the broker retains. */
    var retained: Retained

    constructor (prefix: string)
      ensures this.prefix == prefix && retained == map[]
    {
      this.prefix := prefix;
      retained := map[];
    }

    /** `publish_message` with `retain=True`; `up` is false when the bridge refuses the call. */
    method PublishMessage(topic: string, payload: string, up: bool) returns (ok: bool)
      modifies this
      ensures ok == up
      ensures retained == if up then Deliver(old(retained), topic, payload) else old(retained)
    {
      if up {
        retained := Deliver(retained, topic, payload);
      }
      ok := up;
    }

    /** The `publish_*` method of the entity's type. */
    method PublishEntity(e: Published, payload: string, up: bool) returns (ok: bool)
      modifies this
      ensures ok == up
      ensures retained == if up then Deliver(old(retained), PublishTopic(prefix, e), payload) else old(retained)
    {
      var node := if NodeAware(e.haType) then e.nodeId else None;
      ok := PublishMessage(BuildTopic(prefix, e.eqId, e.haType, node), payload, up);
    }

    /** `unpublish_by_eq_id`: every topic is tried, a single failure is enough to return false. */
    method UnpublishByEqId(eqId: int, haType: string, nodes: seq<NodeRef>, up: nat -> bool) returns (ok: bool)
      modifies this
      ensures var topics := UnpublishTopics(prefix, eqId, haType, nodes);
        && (ok <==> forall i :: 0 <= i < |topics| ==> up(i))
        && retained == old(retained) - (set i | 0 <= i < |topics| && up(i) :: topics[i])
    {
      hide BuildTopic;
      var topics: seq<string> := [];
      if nodes != [] {
        for i := 0 to |nodes|
          invariant topics == UnpublishTopics(prefix, eqId, haType, nodes)[..i]
        {
          topics := topics + [RefTopic(prefix, eqId, haType, nodes[i])];
        }
      } else {
        topics := [BuildTopic(prefix, eqId, haType, None)];
      }
      ok := true;
      for i := 0 to |topics|
        invariant ok <==> forall k :: 0 <= k < i ==> up(k)
        invariant retained == old(retained) - (set k | 0 <= k < i && up(k) :: topics[k])
      {
        ghost var gone := set k | 0 <= k < i && up(k) :: topics[k];
        var sent := PublishMessage(topics[i], "", up(i));
        if !sent {
          ok := false;
        }
        assert (set k | 0 <= k < i + 1 && up(k) :: topics[k]) == gone + if up(i) then {topics[i]} else {};
      }
    }
  }

  /** Publishing every entity of an equipment. */
  function PublishAll(prefix: string, r: Retained, es: seq<Published>, payloads: seq<string>): Retained
    requires |payloads| == |es|
  {
    if es == [] then r
    else Deliver(PublishAll(prefix, r, es[..|es|-1], payloads[..|es|-1]), PublishTopic(prefix, es[|es|-1]),
      payloads[|es|-1])
  }

  lemma {:induction false} PublishedKeys(prefix: string, r: Retained, es: seq<Published>, payloads: seq<string>)
    requires |payloads| == |es| && forall i :: 0 <= i < |es| ==> payloads[i] != ""
    ensures var after := PublishAll(prefix, r, es, payloads);
      && after.Keys == r.Keys + PublishTopics(prefix, es)
      && forall t :: t in r && t !in PublishTopics(prefix, es) ==> after[t] == r[t]
  {
    hide PublishTopic;
    if es != [] {
      var front, last := es[..|es|-1], es[|es|-1];
      PublishedKeys(prefix, r, front, payloads[..|es|-1]);
      assert es == front + [last];
      assert PublishTopics(prefix, es) == PublishTopics(prefix, front) + {PublishTopic(prefix, last)};
    }
  }

  /**
    Published, saved, reloaded after a restart and emptied: the broker is back to what it retained besides
    the equipment's own topics, whatever it retained before and whatever was published.
  */
  lemma BootRestoresTheBroker(prefix: string, r: Retained, es: seq<Published>, payloads: seq<string>, eqId: int)
    requires es != [] && OfEquipment(es, eqId) && NodesFit(es)
    requires |payloads| == |es| && forall i :: 0 <= i < |es| ==> payloads[i] != ""
    ensures PublishAll(prefix, r, es, payloads) - BootTopics(prefix, es) == r - PublishTopics(prefix, es)
  {
    hide BootTopics, PublishTopics, PublishAll;
    PublishedKeys(prefix, r, es, payloads);
    BootEmptiesWhatWasPublished(prefix, es, eqId);
  }

  /**
    A daemon publishes the entities of an equipment and saves its publications; the next one reloads them and empties
    the equipment.  When the nodes fit, the broker is back to what it retained besides the equipment's own topics.
  */
  method PublishRestartEmpty(p: Publisher, items: seq<(int, Publication)>, k: nat, payloads: seq<string>)
    returns (ok: bool)
    requires DistinctKeys(items) && k < |items| && items[k].1.entities != []
      && OfEquipment(items[k].1.entities, items[k].0)
    requires |payloads| == |items[k].1.entities| && forall i :: 0 <= i < |payloads| ==> payloads[i] != ""
    modifies p
    ensures ok
    ensures var es := items[k].1.entities;
      && p.retained.Keys == old(p.retained).Keys + PublishTopics(p.prefix, es) - BootTopics(p.prefix, es)
      && (NodesFit(es) ==> p.retained == old(p.retained) - PublishTopics(p.prefix, es))
  {
    hide ExtractNodeIds, NormalizeAll, UnpublishTopics, PublishTopic, OfEquipment, Deliver;
    var (eqId, publication) := items[k];
    var es := publication.entities;
    for i := 0 to |es|
      invariant p.retained == PublishAll(p.prefix, old(p.retained), es[..i], payloads[..i])
    {
      assert es[..i+1][..i] == es[..i] && payloads[..i+1][..i] == payloads[..i];
      var sent := p.PublishEntity(es[i], payloads[i], true);
    }
    assert es[..|es|] == es && payloads[..|es|] == payloads;
    PublishedKeys(p.prefix, old(p.retained), es, payloads);
    var cache := SaveThenLoad(items);
    var entry := cache[eqId];
    assert es[0].eqId == eqId by { FirstIsOfEquipment(es, eqId); }
    ok := p.UnpublishByEqId(eqId, entry.haType, entry.nodes, i => true);
    ghost var topics := UnpublishTopics(p.prefix, eqId, entry.haType, entry.nodes);
    assert (set i | 0 <= i < |topics| :: topics[i]) == BootTopics(p.prefix, es);
    if NodesFit(es) {
      BootRestoresTheBroker(p.prefix, old(p.retained), es, payloads, eqId);
    }
  }

  lemma FirstIsOfEquipment(es: seq<Published>, eqId: int)
    requires es != [] && OfEquipment(es, eqId)
    ensures es[0].eqId == eqId
  {
  }
}
