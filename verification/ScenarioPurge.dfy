/**
  The removal of the scenario buttons the broker still retains (`purge_orphan_scenario_buttons` of
  `discovery/publisher.py`).
*/
module ScenarioPurge {
  import opened Prelude
  import opened Decimal
  import opened DiscoveryTopics
  import opened DiscoveryPublisher

  const NODE := "jeedom2ha_scenario_"
  const TAIL := "/config"

  function Head(prefix: string): string { prefix + "/button/" + NODE }

  /** The topic under which the button of a scenario is published. */
  function ButtonTopic(prefix: string, id: nat): string { BuildTopic(prefix, 0, "button", Some(NODE + Digits(id))) }

  /** The digits of a topic that has exactly the form of a scenario button. */
  function ScenarioDigits(prefix: string, topic: string): Option<string> {
    var head := Head(prefix);
    if |head| + |TAIL| < |topic| && head <= topic && topic[|topic|-|TAIL|..] == TAIL
      && AllDigits(topic[|head|..|topic|-|TAIL|])
    then Some(topic[|head|..|topic|-|TAIL|]) else None
  }

  /** A button whose scenario is neither active nor already emptied. */
  predicate IsOrphan(prefix: string, topic: string, active: set<int>, skip: set<int>) {
    ScenarioDigits(prefix, topic).Some? && AllDigits(ScenarioDigits(prefix, topic).value)
    && DigitsValue(ScenarioDigits(prefix, topic).value) !in active
       && DigitsValue(ScenarioDigits(prefix, topic).value) !in skip
  }

  lemma DigitsAreDigits(prefix: string, topic: string)
    requires ScenarioDigits(prefix, topic).Some?
    ensures ScenarioDigits(prefix, topic).value != "" && AllDigits(ScenarioDigits(prefix, topic).value)
  {
  }

  lemma TopicOfDigits(prefix: string, digits: string)
    ensures BuildTopic(prefix, 0, "button", Some(NODE + digits)) == Head(prefix) + digits + TAIL
  {
    assert (NODE + digits)[0] == 'j';
    assert "/" + "button" + "/" == "/button/" && "/config" == TAIL;
  }

  /** The topic emptied for a topic read is that topic itself, leading zeros included. */
  lemma EmptiedIsRead(prefix: string, topic: string)
    requires ScenarioDigits(prefix, topic).Some?
    ensures BuildTopic(prefix, 0, "button", Some(NODE + ScenarioDigits(prefix, topic).value)) == topic
  {
    var digits := ScenarioDigits(prefix, topic).value;
    var head, cut := Head(prefix), |topic| - |TAIL|;
    hide Head;
    assert topic == topic[..|head|] + topic[|head|..cut] + topic[cut..];
    TopicOfDigits(prefix, digits);
  }

  /** The button of a scenario is recognised under its id. */
  lemma ButtonIsRecognised(prefix: string, id: nat)
    ensures ScenarioDigits(prefix, ButtonTopic(prefix, id)) == Some(Digits(id)) && DigitsValue(Digits(id)) == id
  {
    hide Digits, Head;
    var topic := ButtonTopic(prefix, id);
    TopicOfDigits(prefix, Digits(id));
    assert topic[|Head(prefix)|..|topic|-|TAIL|] == Digits(id);
    assert topic[|topic|-|TAIL|..] == TAIL;
    DigitsRoundTrip(id);
  }

  /** The positions of the buttons that are emptied. */
  ghost predicate Emptied(prefix: string, list: seq<string>, active: set<int>, skip: set<int>, up: nat -> bool, i: nat)
  {
    i < |list| && IsOrphan(prefix, list[i], active, skip) && up(i)
  }

  ghost function EmptiedTopics(prefix: string, list: seq<string>, active: set<int>, skip: set<int>, up: nat -> bool,
      n: nat): set<string>
  {
    set i: nat | i < n && Emptied(prefix, list, active, skip, up, i) :: list[i]
  }

  ghost function EmptiedIds(prefix: string, list: seq<string>, active: set<int>, skip: set<int>, up: nat -> bool,
      n: nat): set<int>
  {
    set i: nat | i < n && Emptied(prefix, list, active, skip, up, i) ::
      DigitsValue(ScenarioDigits(prefix, list[i]).value)
  }

  predicate Increasing(ids: seq<int>) { forall i, j :: 0 <= i < j < |ids| ==> ids[i] < ids[j] }

  function Insert(ids: seq<int>, id: int): (r: seq<int>)
    requires Increasing(ids)
    ensures Increasing(r) && forall k :: k in r <==> k in ids || k == id
  {
    if ids == [] || id < ids[0] then [id] + ids
    else if id == ids[0] then ids
    else
      var rest := Insert(ids[1..], id);
      assert ids == [ids[0]] + ids[1..];
      assert forall k :: k in rest ==> ids[0] < k;
      assert forall i :: 0 <= i < |rest| ==> rest[i] in rest;
      [ids[0]] + rest
  }

  /** `sorted(set(...))`. */
  function SortedIds(ids: seq<int>): (r: seq<int>)
    ensures Increasing(r) && forall k :: k in r <==> k in ids
  {
    if ids == [] then []
    else
      assert ids == [ids[0]] + ids[1..];
      Insert(SortedIds(ids[1..]), ids[0])
  }

  /**
    What was read is emptied when it is the button of an orphan scenario, nothing else; without a reading nothing is.
    `up` tells which deliveries the bridge accepts.
  */
  method PurgeOrphanScenarioButtons(p: Publisher, collected: Option<seq<string>>, active: set<int>, skip: set<int>,
      up: nat -> bool)
    returns (ids: seq<int>)
    modifies p
    ensures collected.None? ==> ids == [] && p.retained == old(p.retained)
    ensures collected.Some? ==>
      p.retained == old(p.retained) - EmptiedTopics(p.prefix, collected.value, active, skip, up, |collected.value|)
    ensures collected.Some? ==>
      Increasing(ids) && forall id :: id in ids <==>
        id in EmptiedIds(p.prefix, collected.value, active, skip, up, |collected.value|)
  {
    hide ScenarioDigits, Emptied;
    if collected.None? {
      return [];
    }
    var purged: seq<int> := [];
    var list := collected.value;
    for i := 0 to |list|
      invariant p.retained == old(p.retained) - EmptiedTopics(p.prefix, list, active, skip, up, i)
      invariant forall id :: id in purged <==> id in EmptiedIds(p.prefix, list, active, skip, up, i)
    {
      EmptiedStep(p.prefix, list, active, skip, up, i);
      var digits := ScenarioDigits(p.prefix, list[i]);
      if digits.None? {
        continue;
      }
      DigitsAreDigits(p.prefix, list[i]);
      var id := DigitsValue(digits.value);
      if id in active || id in skip {
        continue;
      }
      EmptiedIsRead(p.prefix, list[i]);
      var ok := p.PublishMessage(BuildTopic(p.prefix, 0, "button", Some(NODE + digits.value)), "", up(i));
      if ok {
        purged := purged + [id];
      }
    }
    ids := SortedIds(purged);
  }

  lemma EmptiedStep(prefix: string, list: seq<string>, active: set<int>, skip: set<int>, up: nat -> bool, i: nat)
    requires i < |list|
    ensures var empties := IsOrphan(prefix, list[i], active, skip) && up(i);
      && EmptiedTopics(prefix, list, active, skip, up, i + 1)
         == EmptiedTopics(prefix, list, active, skip, up, i) + (if empties then {list[i]} else {})
      && EmptiedIds(prefix, list, active, skip, up, i + 1)
         == EmptiedIds(prefix, list, active, skip, up, i)
           + (if empties then {DigitsValue(ScenarioDigits(prefix, list[i]).value)} else {})
  {
  }

  predicate Spells(prefix: string, topic: string, id: int) {
    ScenarioDigits(prefix, topic).Some? && AllDigits(ScenarioDigits(prefix, topic).value)
    && DigitsValue(ScenarioDigits(prefix, topic).value) == id
  }

  /** The button of an active scenario is never emptied, however its id is spelt. */
  lemma ActiveButtonsStay(prefix: string, list: seq<string>, active: set<int>, skip: set<int>, up: nat -> bool, id: nat)
    requires id in active || id in skip
    ensures forall topic :: Spells(prefix, topic, id) ==>
      topic !in EmptiedTopics(prefix, list, active, skip, up, |list|)
    ensures Spells(prefix, ButtonTopic(prefix, id), id)
  {
    hide ScenarioDigits, ButtonTopic;
    ButtonIsRecognised(prefix, id);
    DigitsAreDigits(prefix, ButtonTopic(prefix, id));
  }
}
