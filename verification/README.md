# jeedom2ha: a verified model

jeedom2ha publishes the equipments of a Jeedom installation in Home Assistant through MQTT discovery. This project
models the parts of it where a mistake is hard to see, and proves what they promise. `dafny verify dfyconfig.toml`
checks the whole project.

1. **The coalescing reader of the states** (`StatesReader`, `ReaderObjects`). The page reads the states of all
   equipments through one object with one read in flight, a dirty flag, a queued refresh, a coalescing timer and a
   bounded retry timer. The answer of a read is an event of its own. The object's methods are proved to be the steps
   of a protocol, and the theorems are about every run of it.
2. **The decision pipeline and its override store** (`Overrides`, `Decision`, `Evaluation`, `EvaluationObjects`,
   `DecisionExport`, `OverrideStore`). The projection validator, the product scope and the registry are arbitrary.
   Mappings and decisions are heap objects in `EvaluationObjects`, so that identity and non-mutation are real claims.
3. **Mappers, discovery topics and the warm-start cache** (`SwitchGroups`, `Registry`, `DiscoveryTopics`,
   `DiscoveryPublisher`, `ScenarioPurge`). Two separate grouping algorithms are proved against one definition of a
   trio. Emptying a retained message is section 3.3.1.3 of MQTT Version 3.1.1.
4. **Counts and the work view** (`EquipmentState`, `Exclusions`, `Overview`, `House`, `WorkTree`, `Fragment`,
   `RoomGroups`).
5. **Steps that may fail or take time, and edits of comma-separated settings** (`StateListeners`, `ActionPacing`,
   `ActionRelay`, `ClickValues`, `CsvTokens`, `RoomExclusion`, `ExcludedPlugins`).

`Prelude`, `Decimal` and `Text` hold what the others share: counting and summing, decimal text, splitting and trimming.

## Where the code does not do what is expected of it

Each is a theorem; where a condition decides, it is exact:

- The preview of an imposed type is not always what a save gives: a command that is not being edited and comes first
  in the mapping with another type wins once saved (`Evaluation.PreviewIsSaveThenSync`, `Overrides.ShadowingHappens`).
- `binary_sensor.py` says at its head that the states of switches are never mapped again. What the registry returns
  breaks that exactly when the equipment is not multi-domain, its first listed binary command is a switch's state and
  there is a sensor: a plug that measures its power is published twice, a plain switch is not
  (`Registry.StateShownTwiceExactlyWhen`, `Registry.MeasuredPlugIsShownTwice`, `Registry.PlainSwitchIsShownOnce`).
- The cache empties what was published exactly when nodes fit types; a secondary whose type is overridden to one that
  ignores nodes stays on the broker (`DiscoveryTopics.BootEmptiesWhatWasPublished`, `Registry.RetypedSecondaryStays`).
- An exported profile comes back under other keys when a key was written by hand with padding
  (`OverrideStore.ExportThenImport`, `OverrideStore.PaddedKeyComesBackChanged`).
- The counts by group and by state, and the rows of the tree, part when one id is listed in a room both as disabled and
  as not disabled; over the house, when such rooms do not make up for each other (`Overview.PathsAgreeExactlyWhen`,
  `WorkTree.TreeAgreesExactlyWhen`, `WorkTree.HouseAgreesExactlyWhen`).
- A plugin named `0` can be ticked but is not read back (`ExcludedPlugins.PluginIdsMeaning`), and a room id followed by
  a line feed is accepted (`RoomExclusion.AcceptedTextExactlyWhen`, `RoomExclusion.LineFeedIsAccepted`).
- The client may stop waiting before the relay of a publication ends when expanding the scope, which nothing bounds,
  or one call of the reading takes too long (`ActionRelay.ClientWaitsExactlyWhen`).

The step recomputed from a reason would be wrong for a validator that answers a code the pipeline reserves
(`Decision.ReservedCodeMisleads`). The shipped one, `validate_projection` of
`resources/daemon/validation/ha_component_registry.py`, answers codes of its own, so this needs an injected validator
(`Decision.StepNamesFirstFailure`, `Decision.ShippedStepIsFirstFailure`).

## Model

| member | source | states |
|---|---|---|
| StatesReader.ClassifyResponse | desktop/js/jeedom2ha_overview.js:232-249 | the kind of every answer: unavailable without an object, available with its payload, in progress or never synchronised otherwise; a retry is asked for exactly when an operation is running |
| StatesReader.EveryRunKeepsInv | desktop/js/jeedom2ha_overview.js:278-354 | in every run of events, answers and timers: one read outstanding at most, only timers the reader has a handle on (with the delay they were armed for), `refreshing` exactly when a refresh is in flight or queued, retries within the table |
| StatesReader.NoNotificationIsLost | desktop/js/jeedom2ha_overview.js:294-351 | after any notification and whatever follows, a read has been started since, or one is still owed by the coalescing timer, `dirty` or the queued refresh |
| StatesReader.QuietMeansDelivered | desktop/js/jeedom2ha_overview.js:294-351 | once no answer and no timer can come any more, a read was started after every notification |
| StatesReader.RefreshesAreConserved | desktop/js/jeedom2ha_overview.js:294-348 | in every run the refresh reads issued, plus the queued one, are exactly the accepted calls of `refresh()` |
| StatesReader.InternalStepDecreases | desktop/js/jeedom2ha_overview.js:294-338 | every answer and every timer strictly decreases one non-negative measure |
| StatesReader.InternalRunsAreBounded | desktop/js/jeedom2ha_overview.js:294-338 | when external events stop, answers and timers stop too: a run of them is no longer than the measure, which is 157 at most |
| StatesReader.RetriesAreBounded | desktop/js/jeedom2ha_overview.js:294-323 | between two runs of another origin the retry timer starts three reads at most, though each such run resets the index |
| StatesReader.RetryIsArmed | desktop/js/jeedom2ha_overview.js:306-327 | after an answer, unless a refresh was queued, a retry waits if and only if an operation is running and fewer than three retries were made since the last run of another origin; its delay is the next of 2, 5 and 10 s |
| StatesReader.RetryReads | desktop/js/jeedom2ha_overview.js:320-323 | when its delay is over a waiting retry starts one read, without a refresh |
| StatesReader.NotificationsAreCoalesced | desktop/js/jeedom2ha_overview.js:335-351 | a notification waits half a second; a return to the page does when the last good answer is older than a minute; neither reads at once |
| StatesReader.CopyIsLastStates | desktop/js/jeedom2ha_overview.js:306-318 | the kind is that of the last answer; the kept copy is always the last states received, with their time, unless the house was said never synchronised since |
| ReaderObjects.Reader.Run | desktop/js/jeedom2ha_overview.js:294-333 | the object's whole state and its page environment become those of the protocol's run |
| ReaderObjects.Reader.Load | desktop/js/jeedom2ha_overview.js:341-341 | the object takes the protocol's step for a load |
| ReaderObjects.Reader.Trigger | desktop/js/jeedom2ha_overview.js:335-338 | the object takes the protocol's step for a trigger: a timer already armed is kept |
| ReaderObjects.Reader.Refresh | desktop/js/jeedom2ha_overview.js:344-348 | the object takes the protocol's step for a refresh, ignored while one is awaited |
| ReaderObjects.Reader.OnVisible | desktop/js/jeedom2ha_overview.js:349-351 | the object takes the protocol's step for a return to the page |
| ReaderObjects.Reader.Answered | desktop/js/jeedom2ha_overview.js:306-332 | the callback of a read takes the protocol's step for an answer, any outcome |
| ReaderObjects.Reader.TimerFires | desktop/js/jeedom2ha_overview.js:321-337 | the closure of an armed timer takes the protocol's step for that timer |
| ReaderObjects.Play | desktop/js/jeedom2ha_overview.js:278-354 | a new object taken through any possible run of calls, answers and timers goes through the protocol's states and keeps its invariant |
| Overrides.PolicyIgnoresOrder | resources/daemon/models/evaluate_equipment.py:166-183 | the publication policy of a mapping does not depend on the order nor the repetition of its commands, although the scan stops at the first exclusion |
| Overrides.ResolveForMapping | resources/daemon/models/evaluate_equipment.py:166-183 | the scan returns the strongest policy among the commands of the mapping, or of the equipment when it has none, which is the one the entries say |
| Overrides.PolicyMeaning | resources/daemon/mapping/overrides.py:535-581 | the policy read on the entries: a veto of the equipment, else an exclusion of one of the commands, else a force of the equipment or of a command, each if and only if such an entry stands |
| Overrides.ScanResolutions | resources/daemon/models/evaluate_equipment.py:174-183 | stopping at the first exclusion finds the strongest resolution of the list when exclusions agree |
| Overrides.SavingKeepsPolicy | resources/daemon/mapping/overrides.py:535-581 | on the publication fields, previewing a proposal and saving it give the same policy for every mapping, without any hypothesis |
| Overrides.PreviewTypeIsSavedType | resources/daemon/models/evaluate_equipment.py:186-216 | the type previewed is the type a save would impose exactly when no unedited command of the mapping comes first with another usable type |
| Overrides.ShadowingHappens | resources/daemon/models/evaluate_equipment.py:186-216 | two typed commands are enough for preview and save to impose different types |
| Overrides.OneTypeIsNotShadowed | resources/daemon/models/evaluate_equipment.py:186-216 | with one usable type at most in the merged layer, nothing is shadowed |
| Overrides.ImposedMeaning | resources/daemon/models/evaluate_equipment.py:186-216 | the imposed type read on the entries: that of the first edited command whose entry is typed, else of the first command that is, with its source |
| Overrides.MergeMeaning | resources/daemon/models/evaluate_equipment.py:140-163 | the merge of two layers, field by field |
| Overrides.SavedEntryMeaning | resources/daemon/mapping/overrides.py:266-307 | what a save leaves, field by field, the source defaulted to the user |
| Overrides.OverrideKeyInjective | resources/daemon/mapping/overrides.py:60-61 | the key `eq:cmd` tells every pair of ids apart |
| Decision.PublishedExactlyWhen | resources/daemon/models/decide_publication.py:69-145 | a mapping is published exactly when it is not excluded, its projection is valid, its type is in scope, and force or confidence policy allow it |
| Decision.PublishedReason | resources/daemon/models/decide_publication.py:124-145 | the reason of a publication: the force, else the confidence |
| Decision.RefusalReason | resources/daemon/models/decide_publication.py:90-142 | the reason of a refusal: that of the first gate that is closed, each with its own code |
| Decision.StepNamesFirstFailure | resources/daemon/models/evaluate_equipment.py:219-229 | the step recomputed from the reason names the first gate that failed, exactly unless a validator answers one of the reserved codes |
| Decision.ShippedStepIsFirstFailure | resources/daemon/models/evaluate_equipment.py:219-229 | with codes of the validator's own, as the shipped one answers, the step always names the first gate that failed |
| Decision.ReservedCodeMisleads | resources/daemon/models/evaluate_equipment.py:219-229 | an injected validator that answers a reserved code is blamed on another step |
| Evaluation.CommandsFollowEntities | resources/daemon/models/evaluate_equipment.py:419-518 | one decision per distinct command, in order; a command is published exactly when an entity that carries it is, and uncovered, with that reason and step, exactly when none carries it |
| Evaluation.CoveringIsFirst | resources/daemon/models/evaluate_equipment.py:303-314 | the entity whose decision a command carries is the first published one that carries it, else the first that does |
| Evaluation.CommandsInOrder | resources/daemon/mapping/overrides.py:353-373 | the commands of a mapping are its identity command first, then the others once each in the order they first come |
| Evaluation.NothingToEvaluate | resources/daemon/models/evaluate_equipment.py:340-418 | an equipment that is not eligible, or that nothing maps, refuses every command with its reason and step |
| Evaluation.EntitiesShowTheirType | resources/daemon/models/evaluate_equipment.py:240-300 | each entity is its mapping under the type its entries impose, validated under that type; nothing else of it changes |
| Evaluation.EntitiesPublishedExactlyWhen | resources/daemon/models/evaluate_equipment.py:317-518 | each entity of an eligible equipment is published if and only if its projection is valid, its final type in scope, no entry of its equipment or commands excludes it, and its confidence or a force in those entries allows it |
| Evaluation.EquipmentExclusionVetoes | resources/daemon/models/evaluate_equipment.py:317-518 | an exclusion set on the equipment vetoes every entity and every command, whatever the other layers say |
| Evaluation.ForceNeverUnpublishes | resources/daemon/models/evaluate_equipment.py:317-518 | saving a force where no policy was set never unpublishes an entity nor a command |
| Evaluation.ExclusionNeverPublishes | resources/daemon/models/evaluate_equipment.py:317-518 | saving an exclusion never publishes an entity nor a command |
| Evaluation.PreviewEntity | resources/daemon/models/evaluate_equipment.py:140-216 | for one mapping: the previewed entity is the one evaluated after the save exactly when nothing shadows the edited command |
| Evaluation.PreviewIsSaveThenSync | resources/daemon/models/evaluate_equipment.py:317-518 | the whole evaluation with a proposal is the evaluation after saving it, with decisions, types and sources, exactly when no mapping of an eligible equipment is shadowed |
| Evaluation.OneTypePreviewIsSaveThenSync | resources/daemon/models/evaluate_equipment.py:186-216 | the documented case: with one usable type at most per mapping, previewing is saving then evaluating |
| EvaluationObjects.ApplyTypeOverride | resources/daemon/mapping/overrides.py:376-436 | the same object when nothing matches, a new patched copy otherwise; the input object does not change |
| EvaluationObjects.ApplyWithProposedPriority | resources/daemon/models/evaluate_equipment.py:186-216 | the object shows the mapping patched with the proposed keys first; no existing object changes |
| EvaluationObjects.DecideForMapping | resources/daemon/models/evaluate_equipment.py:240-271 | a new working copy and a new decision, showing the validated mapping and its decision; no existing object changes |
| EvaluationObjects.FinalizeCrossReference | resources/daemon/models/evaluate_equipment.py:274-300 | the working copy and its decision point at each other by identity, and nothing else of them changes but the step and the secondaries |
| EvaluationObjects.CollectCandidates | resources/daemon/models/evaluate_equipment.py:474-484 | the dictionary holds, for every command, the entities that carry it in their order |
| EvaluationObjects.SelectCoveringDecision | resources/daemon/models/evaluate_equipment.py:303-314 | the loop finds the covering candidate of the specification |
| EvaluationObjects.DecideCommandsFrom | resources/daemon/models/evaluate_equipment.py:470-505 | the command decisions built through the dictionary are those of the specification |
| EvaluationObjects.EvaluateEquipment | resources/daemon/models/evaluate_equipment.py:317-518 | new objects linked two by two, showing the outcome of the specification; no object that existed changes |
| DecisionExport.CandidatePairs | resources/daemon/export/decision_export.py:136-143 | the entities read back from the objects are those of the evaluation, in order |
| DecisionExport.MakeEquipmentRecord | resources/daemon/export/decision_export.py:146-202 | one row per command, its entity looked up again among the carriers; verdict, reason and step of the equipment |
| DecisionExport.EvaluationEvaluates | resources/daemon/models/evaluate_equipment.py:317-518 | every evaluation gives what the theorems about the record ask of it |
| DecisionExport.LinesNameTheirEntity | resources/daemon/export/decision_export.py:136-202 | a row exists exactly for the commands of the equipment; a covered row names an entity that carries the command and whose own decision it shows; a published row names an entity that publishes |
| DecisionExport.EquipmentSumsUpItsLines | resources/daemon/export/decision_export.py:160-202 | any published row makes the equipment published or partial, which holds exactly when an entity publishes |
| DecisionExport.RecordMeaning | resources/daemon/export/decision_export.py:160-202 | without a scope exclusion: the verdict, the reason and the step of an equipment |
| DecisionExport.ScopeExclusionWins | resources/daemon/export/decision_export.py:160-202 | a scope exclusion makes the equipment and every row not published, each with the scope's reason and step |
| OverrideStore.Store.SaveOverride | resources/daemon/mapping/overrides.py:266-307 | the file gets the merged entry, with the source defaulted, under the key; a broken file or a failed write leaves it as it was |
| OverrideStore.Store.RemoveOverrideFields | resources/daemon/mapping/overrides.py:470-495 | the fields are removed, the entry with them when nothing meaningful is left; the answer tells whether a field was there |
| OverrideStore.RemoveMeaning | resources/daemon/mapping/overrides.py:470-495 | which fields a removal leaves, and when the entry goes with them |
| OverrideStore.Store.ImportProfile | resources/daemon/mapping/overrides.py:618-689 | nothing is written unless every entry and every key passes; then the file is that of the saves made before the first failing write, all of them when none fails, and the answer tells which |
| OverrideStore.PlanMeaning | resources/daemon/mapping/overrides.py:640-672 | what an import refuses, in the order it is looked at: no profile, another version, a command, an equipment |
| OverrideStore.PlanSectionMeaning | resources/daemon/mapping/overrides.py:655-672 | every entry of a section is planned under its key unless one is unsound; the first such names the error |
| OverrideStore.AcceptedKeys | resources/daemon/mapping/overrides.py:162-181 | a command key is accepted when two integers stand around its first colon, an equipment key when it is an integer |
| OverrideStore.OwnKeysAreAccepted | resources/daemon/mapping/overrides.py:60-61 | every key the store writes is accepted as it stands |
| OverrideStore.SavesMakeTheSavedLayer | resources/daemon/mapping/overrides.py:266-307 | saving proposals one by one, in any order, gives the layer the preview theorems speak of |
| OverrideStore.RemovalUndoesSave | resources/daemon/mapping/overrides.py:470-495 | removing a field just saved where it was not set gives back every value the pipeline reads |
| OverrideStore.KeysAreStable | resources/daemon/mapping/overrides.py:162-181 | an accepted key is written under a key that reads back as itself |
| OverrideStore.ExportImportExport | resources/daemon/mapping/overrides.py:584-689 | the same on the two sections, whatever the order the profile lists them in |
| OverrideStore.ExportThenImport | resources/daemon/mapping/overrides.py:584-689 | the stores themselves: exported by one, imported by an empty one and exported again, the profile is the same up to the default source exactly when every key of the first file is spelt as the store spells it; the second store then imposes the same types, among the ten that may leave, and the same publications |
| OverrideStore.ExportMeaning | resources/daemon/mapping/overrides.py:100-160 | an export keeps every key and, of each entry, exactly the fields whose value is in the closed set of that field, the sets written out |
| OverrideStore.SanitizeMeaning | resources/daemon/mapping/overrides.py:137-159 | a field leaves an entry if and only if it is one of its level and its value is in its closed set; values do not change |
| OverrideStore.SectionRoundTrip | resources/daemon/mapping/overrides.py:584-689 | the same for one section, whatever the order of its entries |
| OverrideStore.PaddedKeyComesBackChanged | resources/daemon/mapping/overrides.py:162-173 | a key with a leading zero is accepted and comes back under another spelling |
| SwitchGroups.GroupSwitchCmds | resources/daemon/mapping/switch.py:320-373 | the groups built, by name then by the fallback pass, are exactly the trios of the declarative definition, each once: the named ones first in the order their keys appear, then the lone ones in the order of their families |
| SwitchGroups.NamedCommandsMakeTrio | resources/daemon/mapping/switch.py:338-356 | a state, an on and an off of one family under one name key make a trio of that name |
| SwitchGroups.LoneCommandsMakeTrio | resources/daemon/mapping/switch.py:357-373 | without a named trio of its family, the only command of each role makes one, whatever the names |
| SwitchGroups.LastNamedIsLast | resources/daemon/mapping/switch.py:338-350 | of several commands of one role under one name key, the last listed stands |
| SwitchGroups.SwitchReadbackCmdIds | resources/daemon/mapping/binary_sensor.py:165-218 | the ids left to the switches are exactly the states of those same trios, plus the last ENERGY state of a complete ENERGY trio |
| SwitchGroups.ReadbackIsOwnedState | resources/daemon/mapping/binary_sensor.py:165-218 | with distinct ids, a command is left to the switches exactly when it is the state of a trio or that ENERGY state |
| DiscoveryTopics.NodesAreInjective | resources/daemon/discovery/publisher.py:487-490 | node ids tell equipments and commands apart, and never mix the two kinds |
| DiscoveryTopics.TopicIsInjective | resources/daemon/discovery/publisher.py:487-490 | topics of names without slash tell types and nodes apart |
| DiscoveryTopics.PublishTopicMeaning | resources/daemon/discovery/publisher.py:64-296 | the topic of an entity in full: its own node for the four types that read it, else the equipment's |
| DiscoveryTopics.NormalizeMeaning | resources/daemon/cache/disk_cache.py:80-104 | what is read of an element of the persisted nodes: a text, an object or a pair without empty part |
| DiscoveryTopics.BootEmptiesWhatWasPublished | resources/daemon/cache/disk_cache.py:32-104 | the topics emptied from the saved then reloaded cache are exactly those published, if and only if nodes are carried only by types that publish under them and, for one type, by all entities or none |
| DiscoveryPublisher.ExtractNodes | resources/daemon/cache/disk_cache.py:32-77 | typed entries when the entities have several types, plain nodes otherwise |
| DiscoveryTopics.ExtractMeaning | resources/daemon/cache/disk_cache.py:32-77 | several types keep a type beside each node, the equipment's own where there is none; one type keeps the nodes there are |
| DiscoveryPublisher.NormalizeLoaded | resources/daemon/cache/disk_cache.py:80-104 | each element of the persisted list, old or new format, is read as the specification says and malformed ones are skipped |
| DiscoveryPublisher.SaveCache | resources/daemon/cache/disk_cache.py:107-152 | one member per publication, keyed by the text of the id: type, name and area of the primary, flags and nodes |
| DiscoveryPublisher.LoadCache | resources/daemon/cache/disk_cache.py:155-203 | members with a malformed key or value are skipped, later equal keys win, fields absent from older files get their defaults |
| DiscoveryPublisher.SaveThenLoad | resources/daemon/cache/disk_cache.py:107-203 | what is loaded is exactly what was saved: same ids, no other, name, area and type of the primary, flags, nodes normalised |
| DiscoveryPublisher.Publisher.PublishEntity | resources/daemon/discovery/publisher.py:64-296 | the retained message of the entity's topic is set, under its node only for the types that read it |
| DiscoveryPublisher.DeliverMeaning | resources/daemon/discovery/publisher.py:64-296 | a payload is what its topic retains, an empty one nothing; other topics keep theirs |
| DiscoveryPublisher.Publisher.UnpublishByEqId | resources/daemon/discovery/publisher.py:326-367 | every topic is tried: exactly those delivered are deleted, and the result is true exactly when all were |
| DiscoveryPublisher.BootRestoresTheBroker | resources/daemon/discovery/publisher.py:326-367 | published then emptied: the broker retains what it retained before, less the topics of the equipment |
| DiscoveryPublisher.PublishRestartEmpty | resources/daemon/transport/http_server.py:2164-2185 | publishing each entity, saving, reloading in the next daemon and emptying leaves what was retained before and the topics published, less those emptied; when nodes fit, that is the broker less the equipment's own topics |
| ScenarioPurge.PurgeOrphanScenarioButtons | resources/daemon/discovery/publisher.py:369-412 | exactly the topics read that have the strict form, an orphan id and an accepted delivery are emptied; their ids are returned once each, in increasing order |
| ScenarioPurge.EmptiedIsRead | resources/daemon/discovery/publisher.py:298-315 | the topic emptied for a topic read is that topic itself |
| ScenarioPurge.ActiveButtonsStay | resources/daemon/discovery/publisher.py:369-412 | the button of an active or already emptied scenario is never emptied, under any spelling of its id |
| Registry.MapSwitches | resources/daemon/mapping/switch.py:97-112 | one entity per trio and no other, in the order of the trios, whose first is the primary; else at most the ENERGY one |
| Registry.EnergySwitchMeaning | resources/daemon/mapping/switch.py:97-112 | without a trio, one switch for the whole equipment exactly when its ENERGY commands give one |
| Registry.MapMultiDomain | resources/daemon/mapping/binary_sensor.py:105-138 | one entity per binary command that the switches leave, in order, of pairwise different commands |
| Registry.MapBinarySensors | resources/daemon/mapping/binary_sensor.py:90-162 | the multi-domain list, or the first listed command for the whole equipment |
| Registry.BinaryListMeaning | resources/daemon/mapping/binary_sensor.py:105-138 | multi-domain: exactly the binary commands that are no state of a switch, each under its name and class |
| Registry.SingleBinaryMeaning | resources/daemon/mapping/binary_sensor.py:140-162 | otherwise one for the whole equipment at most: the first binary command of a listed type |
| Registry.MultiDomainMeaning | resources/daemon/mapping/binary_sensor.py:69-85 | multi-domain: a switch with a binary command of another kind, two measures, or two states |
| Registry.ReemitsExactlyWhen | resources/daemon/mapping/binary_sensor.py:90-162 | the binary mapper's own list: in the multi-domain case it never holds a trio's state; outside it, it does exactly when that state is the first listed binary command |
| Registry.MapSensors | resources/daemon/mapping/sensor.py:199-307 | the numeric commands no switch consumes, or a single sensor |
| Registry.SensorListMeaning | resources/daemon/mapping/sensor.py:271-307 | several sensors: exactly the measures no switch consumes, each under its name and class |
| Registry.SingleSensorMeaning | resources/daemon/mapping/sensor.py:213-269 | a single one: the first command of a listed type for the whole equipment, else the first of a reliable unit under its own node |
| Registry.StructuralMeaning | resources/daemon/mapping/sensor.py:106-130 | one sensor per measure: a switch shape with two measures, or an allowed light with a measure of power or energy |
| Registry.ConsumedMeaning | resources/daemon/mapping/sensor.py:163-180 | a state is left to the switches when it is the last ENERGY state and has an action, or a SWITCH state that has both under its name |
| Registry.DerivedClassMeaning | resources/daemon/mapping/sensor.py:310-322 | the class of a measure: its listed type's, else its reliable unit's |
| Registry.MapStructural | resources/daemon/mapping/registry.py:100-142 | switches or a publishable light, then sensors, then binary sensors, only when that makes a multi-entity equipment |
| Registry.AggregateMeaning | resources/daemon/mapping/registry.py:100-142 | when switches or a light lead, what follows them, and when nothing is aggregated |
| Registry.MapFirst | resources/daemon/mapping/registry.py:76-85 | the list of one mapper, no mapper of lower rank having a result, with the ten ranks written out; nothing when none has one |
| Registry.BinaryBeforeSensors | resources/daemon/mapping/registry.py:25-36 | with no result of the first six mappers, a binary list that is not empty is the result, whatever the sensors |
| Registry.SensorsBeforeTheRest | resources/daemon/mapping/registry.py:25-36 | without it the sensors are, then the button, then the fallback |
| Registry.MapAll | resources/daemon/mapping/registry.py:62-98 | structural result or first mapper's, then the name rule; entities of one type are of different commands, whatever the path |
| Registry.NameRuleMeaning | resources/daemon/mapping/registry.py:88-98 | a single entity takes the name of its equipment, and nothing else is renamed |
| Registry.StateShownTwiceExactlyWhen | resources/daemon/mapping/registry.py:62-142 | what the registry returns shows a trio's state again as a binary sensor if and only if the equipment is not multi-domain, its first listed binary command is a trio's state, and there is a sensor |
| Registry.MeasuredPlugIsShownTwice | resources/daemon/mapping/registry.py:121-142 | a switch trio with one power measure: its state is published both as the switch and as a binary sensor |
| Registry.PlainSwitchIsShownOnce | resources/daemon/mapping/registry.py:75-84 | a switch trio alone is never shown twice |
| Registry.TopicsAreDistinct | resources/daemon/mapping/registry.py:62-142 | two entities of one equipment, or of two equipments, never share a discovery topic |
| Registry.BootEmptiesTheRegistrysTopics | resources/daemon/mapping/registry.py:62-142 | for whatever the registry returns, boot empties exactly the topics published for the equipment, and none of another one |
| Registry.RetypedSecondaryStays | resources/daemon/discovery/publisher.py:326-367 | a secondary retyped to a light is emptied under another topic than the one it was published under |
| EquipmentState.Analyze | desktop/js/jeedom2ha_mapping_override.js:913-945 | the counters are the numbers of commands of each category, and off by counting is off command by command |
| EquipmentState.CategoriesPartition | desktop/js/jeedom2ha_mapping_override.js:873-896 | every command is in exactly one of the seven categories |
| EquipmentState.CategoryMeaning | desktop/js/jeedom2ha_mapping_override.js:873-896 | each category if and only if the fields of the row say so, with the codes written out |
| EquipmentState.CauseMeaning | desktop/js/jeedom2ha_mapping_override.js:852-871 | the cause is the first code that has a text, else the first code, in the order of the diagnostic |
| EquipmentState.RefusalMeaning | desktop/js/jeedom2ha_mapping_override.js:852-871 | codes that speak against the publication: the projection's when it is invalid, the decision's when it refuses, each once |
| EquipmentState.BlockingReasonMeaning | desktop/js/jeedom2ha_mapping_override.js:666-686 | the text of a block: its cause's, else what is missing, else the codes |
| EquipmentState.ResolveState | desktop/js/jeedom2ha_mapping_override.js:955-985 | the state decided by the counters is the state defined from the commands themselves, with the blocked mention only for published or waiting equipments |
| EquipmentState.StateMeaning | desktop/js/jeedom2ha_mapping_override.js:955-985 | each state if and only if the fields of the tree and of its commands say so: a setting that waits, then the presence, then the rest |
| EquipmentState.GroupBlockedCauses | desktop/js/jeedom2ha_mapping_override.js:1030-1055 | one group per distinct cause, in which exactly the blocked commands of that cause are listed in order; the counts add up to the blocked commands |
| EquipmentState.CauseTextMeaning | desktop/js/jeedom2ha_mapping_override.js:1030-1055 | the text of a group: the reason of the block, else the code of the cause, else that there is none |
| EquipmentState.ListedAreRefused | desktop/js/jeedom2ha_mapping_override.js:1030-1055 | an id is listed under a cause exactly when its command is neither present, off nor uncovered, its diagnostic refuses, and its cause has that text |
| Overview.GroupsPartition | desktop/js/jeedom2ha_overview.js:82-129 | the five group counts of a room add up to its equipments |
| Overview.PathsAgreeExactlyWhen | desktop/js/jeedom2ha_overview.js:82-129 | the counts by group agree with `summarizeRoom` by state and unread for every reading, if and only if no id is listed in the room both as disabled and as not disabled |
| Overview.SummarizeRoom | desktop/js/jeedom2ha_mapping_override.js:1171-1190 | the summary counts the trees read by state, with the flag found under the tree's id |
| Overview.BlockedCommandsMeaning | desktop/js/jeedom2ha_mapping_override.js:1171-1190 | a defect is a command neither present, off nor uncovered that its diagnostic refuses for a cause that is not ignored |
| Overview.ComputeRoom | desktop/js/jeedom2ha_overview.js:86-122 | rows with their cause of exclusion, group counts, summary and breakdown of the excluded equipments are those the theorems speak of |
| Exclusions.ExclusionCause | desktop/js/jeedom2ha_mapping_override.js:1225-1241 | the cause of an excluded equipment: its own reason, else the one reason its excluded commands share, none when they differ |
| Exclusions.KindMeaning | desktop/js/jeedom2ha_mapping_override.js:1212-1218 | the kind of each code |
| Exclusions.ExclusionBreakdown | desktop/js/jeedom2ha_mapping_override.js:1277-1302 | one count per plugin, in the order of the types, and the counts of the other causes, each the number of equipments of that cause |
| Exclusions.TallyMeaning | desktop/js/jeedom2ha_mapping_override.js:1277-1302 | the tallies of the breakdown, on the codes themselves |
| Exclusions.BreakdownPartition | desktop/js/jeedom2ha_mapping_override.js:1277-1302 | the parts of a breakdown add up to the excluded equipments |
| Overview.CausesAddUp | desktop/js/jeedom2ha_overview.js:86-122 | when flags agree, the causes of exclusion of a room add up to the excluded equipments of its summary, which is counted by the other path |
| House.SummarizeHouse | desktop/js/jeedom2ha_mapping_override.js:1193-1206 | the house summary is the sum of the room summaries, state by state |
| House.ComputeOverview | desktop/js/jeedom2ha_overview.js:82-129 | totals, rooms and house are the sums over the rooms |
| House.HousePartition | desktop/js/jeedom2ha_overview.js:82-129 | the five house counts add up to its equipments |
| House.FilterRows | desktop/js/jeedom2ha_overview.js:131-137 | the list behind a filter is the rows of its group, room after room |
| House.FilterMatchesCount | desktop/js/jeedom2ha_overview.js:131-137 | a filter lists as many equipments as its count says, all of its group |
| House.ChipsFor | desktop/js/jeedom2ha_overview.js:68-78 | every group has its chip but an empty unread one that is not active, in the legend's order; counts add up to the total; only an empty inactive filter is disabled |
| House.GaugeSegments | desktop/js/jeedom2ha_overview.js:142-149 | the segments are those of the groups that are not empty, in order, each as wide as its count is of the total, and add up to 100 % when the total is that of the counts |
| WorkTree.BuildTree | desktop/js/jeedom2ha_workview.js:124-188 | groups, rooms and rows of the tree, with their marks, counts and mentions, are those of the specification; row and room counts are the numbers shown |
| WorkTree.RowsMeaning | desktop/js/jeedom2ha_workview.js:150-171 | the rows of a room are those of its equipments that the filter and the search keep, with what they show |
| WorkTree.NodeMeaning | desktop/js/jeedom2ha_workview.js:136-171 | a known room is shown but for one that a filter or a search leaves empty; both open every room |
| WorkTree.PlaceRooms | desktop/js/jeedom2ha_workview.js:136-146 | the room alone in its scope, else the groups given and then the rooms they leave out |
| WorkTree.TreeCountsStates | desktop/js/jeedom2ha_workview.js:150-171 | rows found by id are counted by the state path |
| WorkTree.TreeAgreesExactlyWhen | desktop/js/jeedom2ha_workview.js:150-171 | under every filter and every reading a room shows as many rows as its chip says, if and only if its flags agree |
| WorkTree.TreeMatchesHouseChip | desktop/js/jeedom2ha_workview.js:124-188 | with a filter and no search, the whole tree has as many rows as the chip of the house, whatever rooms the groups list, forget or do not know, under the condition of the next row |
| WorkTree.HouseAgreesExactlyWhen | desktop/js/jeedom2ha_workview.js:150-171 | over the house, the rows of the tree equal the chips under every filter and every reading if and only if the ids listed as disabled are, as many times each, those the tree takes as disabled |
| WorkTree.HousePathsAgreeExactlyWhen | desktop/js/jeedom2ha_overview.js:82-129 | over the house, counts by group are counts by state and unread on every reading if and only if the same condition holds |
| WorkTree.AgreeingRooms | desktop/js/jeedom2ha_overview.js:86-110 | rooms whose flags all agree meet that condition |
| WorkTree.TreeMatchesRoomChip | desktop/js/jeedom2ha_workview.js:137-188 | in the scope of one room, as many rows as that room's chip |
| Fragment.ParseFragment | desktop/js/jeedom2ha_workview.js:41-63 | the loop reads the fragment as the specification does, refusals included |
| Fragment.ReadPartsMeaning | desktop/js/jeedom2ha_workview.js:49-59 | parts are accepted exactly when each is a field and no kind comes twice; the state then says exactly what the fields say |
| Fragment.ReadFieldMeaning | desktop/js/jeedom2ha_workview.js:38-59 | a part is a field if and only if it has the printed form of that field |
| Fragment.RoundTripExactlyWhen | desktop/js/jeedom2ha_workview.js:41-73 | printing and reading gives the state back if and only if it is well-formed: ids of nine digits at most, a known filter, an equipment or a lone room only with its room, and something to print |
| Fragment.FormatMeaning | desktop/js/jeedom2ha_workview.js:65-73 | what is printed of a state, and when nothing is |
| Fragment.ParsedIsWellFormed | desktop/js/jeedom2ha_workview.js:41-63 | whatever is accepted is well-formed |
| Fragment.ReparseIsStable | desktop/js/jeedom2ha_workview.js:41-73 | the printed form of an accepted fragment names the same state |
| Fragment.OrderDoesNotMatter | desktop/js/jeedom2ha_workview.js:49-62 | the parts may come in any order: same state, or refused either way |
| Fragment.FragmentsReadAlike | desktop/js/jeedom2ha_workview.js:41-63 | two fragments whose texts hold the same fields are read alike |
| Fragment.AnyOrderIsParsed | desktop/js/jeedom2ha_workview.js:41-73 | the printed fields of a well-formed state, joined in any order, are read as that state |
| Fragment.ResolveFragment | desktop/js/jeedom2ha_workview.js:76-89 | accepted exactly when it names nothing but a filter, or an existing room and, if any, an equipment of that room; then unchanged |
| StateListeners.NormalizeTargets | core/php/jeedom2ha_state_listeners.php:34-54 | all or nothing: targets in the answer's order exactly when every entry is sound, the equipment defaulting to 0 |
| StateListeners.TargetMeaning | core/php/jeedom2ha_state_listeners.php:34-54 | a sound entry names a command by a positive number, and an equipment by one that is not negative, zero by default |
| StateListeners.Jeedom.CreateAll | core/php/jeedom2ha_state_listeners.php:105-114 | new listeners are added one by one after the old ones, which all stay after every call |
| StateListeners.Jeedom.Purge | core/php/jeedom2ha_state_listeners.php:116-122 | old listeners are removed one by one, the new ones staying after every call |
| StateListeners.Jeedom.Realign | core/php/jeedom2ha_state_listeners.php:74-124 | any call may fail, before or after its effect: old listeners all stay until creation is done, then every target has one after each call; null leaves every old listener; full success leaves exactly the targets, duplicates included |
| StateListeners.Jeedom.Replace | core/php/jeedom2ha_state_listeners.php:92-124 | from sound targets: the listeners found stay until one per target is there, and only they are removed |
| StateListeners.NoCommandGoesDeaf | core/php/jeedom2ha_state_listeners.php:56-124 | a command that had a listener and is still a target has one after every call |
| RoomGroups.IndexFamily | desktop/php/jeedom2ha_overview_helpers.php:115-134 | an id has the name and the parent of the last real room with it, else of the last ancestor with it, else none |
| RoomGroups.FamilyMeaning | desktop/php/jeedom2ha_overview_helpers.php:115-134 | the same of the index the groups and titles are defined on |
| RoomGroups.KnownFatherMeaning | desktop/php/jeedom2ha_overview_helpers.php:136-141 | the known parent is the parent listed, another than the room and known under a name |
| RoomGroups.ComputeTitle | desktop/php/jeedom2ha_overview_helpers.php:142-151 | the walk up the parents ends, because each turn meets a name not met before, with the title of the specification |
| RoomGroups.ChainIsLineage | desktop/php/jeedom2ha_overview_helpers.php:142-151 | the chain of a title follows the known parents, never twice through one id, and stops at its end or at a cycle |
| RoomGroups.TitleIsLineage | desktop/php/jeedom2ha_overview_helpers.php:142-151 | a title is the names of the lineage joined, the eldest first |
| RoomGroups.GroupRooms | desktop/php/jeedom2ha_overview_helpers.php:153-190 | the groups are those of the specification: rooms alone, parents in order of appearance, rooms that are none |
| RoomGroups.EveryRoomInOneGroup | desktop/php/jeedom2ha_overview_helpers.php:114-190 | every room is in exactly one group, once, for any parent relation |
| RoomGroups.GroupsAreHouseholds | desktop/php/jeedom2ha_overview_helpers.php:153-190 | each group is the rooms alone, the rooms that are none, or one parent, first if it has a card, with only its direct children that are no parents |
| ActionPacing.PausesStayBelowCeiling | resources/daemon/transport/action_pacing.py:26-39 | whatever number of pauses is believed left and however late the wake-ups, the pauses asked for never exceed the ceiling, and the time measured exceeds them by the lateness alone |
| ActionPacing.PauseCeilingMeaning | resources/daemon/transport/action_pacing.py:16-23 | the ceiling is half of the deadline, fifteen seconds from a deadline of thirty on; the work keeps the rest |
| ActionPacing.EvenTotal | resources/daemon/transport/action_pacing.py:26-39 | with exact counts and sleeps the n pauses are equal and add up to the least of n delays and the ceiling |
| ActionPacing.ActionDelayMeaning | resources/daemon/transport/http_server.py:4596-4596 | ten seconds over the equipments, a tenth of a second each at least |
| ActionPacing.ActionMeetsDeadline | resources/daemon/transport/action_pacing.py:16-23 | work within its budget and wake-ups late within the margin keep the action within its deadline |
| ActionPacing.RemovalMeetsDeadline | resources/daemon/transport/http_server.py:4590-4648 | the pauses of a removal and its work keep to the deadline when wake-ups are late within the margin |
| ActionPacing.PaceRemovals | resources/daemon/transport/http_server.py:4590-4648 | the loop of a removal makes one pause after each equipment removed but the last, with the exact count left |
| ActionRelay.Daemon.Dispatch | core/php/jeedom2ha_action_budget.php:111-187 | the calls made, the outcome and the time taken are those of the specification with the values really read, for every behaviour of the injected calls; the client still waits at the end, whatever the path, when calls keep to their timeouts, the scope is expanded within the reading deadline and no call of the reading lasts 14 s |
| ActionRelay.Daemon.Prepare | core/php/jeedom2ha_action_budget.php:124-139 | the probe, then the collection of the values for a publication only, and neither reading nor action when the probe is not answered |
| ActionRelay.Daemon.Read | core/ajax/jeedom2ha.ajax.php:903-944 | the reading step is the collection of the click: values of the first commands of the scope, none exactly when a call failed, within the larger of the expansion and the deadline plus one call |
| ActionRelay.Daemon.Conclude | core/php/jeedom2ha_action_budget.php:155-187 | after the action: diagnosis, refusal of a conflict, or realignment |
| ActionRelay.CallsMeaning | core/php/jeedom2ha_action_budget.php:111-187 | which calls are made, in the answers and the time of the action |
| ActionRelay.OutcomeMeaning | core/php/jeedom2ha_action_budget.php:111-187 | each error and the reply, if and only if the answers and the time of the action say so |
| ActionRelay.Daemon.RealignAfterAction | core/php/jeedom2ha_state_listeners.php:138-148 | tried exactly for a publication that was answered; one that raises is a warning, and counts as tried |
| ActionRelay.RelayTime | core/php/jeedom2ha_action_budget.php:111-187 | if each call keeps to its timeout, the relay lasts no longer than the worst path but for what the reading takes beyond its deadline |
| ActionRelay.ClientWaitsExactlyWhen | desktop/js/jeedom2ha_action_budget.js:12-29 | the client outwaits every publication whose calls keep to their timeouts if and only if the reading is bounded below 24 s |
| ClickValues.Reader.ExpandScope | core/ajax/jeedom2ha.ajax.php:383-415 | the equipments of the scope, or a failure exactly when a call fails |
| ClickValues.Reader.ReadBounded | core/ajax/jeedom2ha.ajax.php:424-454 | the values of the commands read before the deadline, all of them when it is not reached; at most one read runs past it |
| ClickValues.Reader.CollectClickValues | core/ajax/jeedom2ha.ajax.php:469-507 | it ends within the larger of the expansion time and the deadline plus one call; null exactly when a call failed; the values are those of the first commands of the scope, of all when time is left |
| ClickValues.ValuesComeFromTheScope | core/ajax/jeedom2ha.ajax.php:424-454 | each value sent is that of an information command of the list |
| ClickValues.EveryValueIsSent | core/ajax/jeedom2ha.ajax.php:424-454 | every information command with a positive id and a value gives its value, the last of an id its own |
| ClickValues.EqIdsMeaning | core/ajax/jeedom2ha.ajax.php:383-415 | the equipments of a scope: those asked for, those of the rooms asked for, or all |
| CsvTokens.TokensOfJoin | core/php/jeedom2ha_room_exclusion.php:55-60 | tokens written with commas are read back unchanged |
| CsvTokens.BlanksAreNoToken | core/php/jeedom2ha_room_exclusion.php:52-63 | which single characters hold no token |
| RoomExclusion.IdsAreMeant | core/php/jeedom2ha_room_exclusion.php:38-41 | the ids the extraction reads are those some token means |
| RoomExclusion.Toggle | core/php/jeedom2ha_room_exclusion.php:52-87 | the text changes exactly when the id is not in the wanted state; the other tokens stay, in order, the id being added last or all its spellings removed |
| RoomExclusion.EditIsExact | core/php/jeedom2ha_room_exclusion.php:52-87 | the edit changes that id and no other, whatever else the text holds |
| RoomExclusion.ToggleTwiceRestores | core/php/jeedom2ha_room_exclusion.php:52-87 | excluding a room and taking it back restores the tokens |
| RoomExclusion.Config.SaveRoomExclusion | core/php/jeedom2ha_room_exclusion.php:101-126 | a refusal writes nothing, an edit without effect neither; otherwise the ids read back differ at the requested one only |
| RoomExclusion.CheckMeaning | core/php/jeedom2ha_room_exclusion.php:101-115 | what a request is refused for, in the order it is looked at, each refusal if and only if |
| RoomExclusion.AcceptedIds | core/php/jeedom2ha_room_exclusion.php:105-107 | an integer is accepted exactly from 1 to 999999999, as itself |
| RoomExclusion.AcceptedTextExactlyWhen | core/php/jeedom2ha_room_exclusion.php:105-107 | an accepted text is the decimal text of its id if and only if it does not end with a line feed |
| RoomExclusion.LineFeedIsAccepted | core/php/jeedom2ha_room_exclusion.php:101-113 | an id followed by a line feed is answered as the id alone |
| ExcludedPlugins.PluginIdsMeaning | core/php/jeedom2ha_excluded_plugins.php:35-37 | the ids read are the tokens, but "0", which PHP's filter drops |
| ExcludedPlugins.BuildList | core/php/jeedom2ha_excluded_plugins.php:59-90 | the boxes are the plugins of Jeedom, ticked when excluded, in the order of folded names then ids, then the excluded ones Jeedom has no more; never the plugin itself |
| ExcludedPlugins.ShownNameMeaning | core/php/jeedom2ha_excluded_plugins.php:59-73 | a plugin is shown under its trimmed name, or its id without one |
| ExcludedPlugins.ComesMeaning | core/php/jeedom2ha_excluded_plugins.php:74-77 | the order of the boxes: where the folded names part, else where the ids do |
| ExcludedPlugins.ComputeExcludedPlugins | plugin_info/configuration.php:188-202 | the text is returned verbatim when no box changed, else the tokens kept and those newly ticked, joined; it is read back token by token if and only if each id newly ticked is a token |
| ExcludedPlugins.SameBoxesExactlyWhen | plugin_info/configuration.php:189-193 | comparing the boxes as joined lines is comparing what they hold when ids are lines |
| ExcludedPlugins.OnlyTickedChange | plugin_info/configuration.php:194-201 | kept tokens stay in order at the front, and an id changes exactly when its box does |
| ExcludedPlugins.PageEditIsExact | plugin_info/configuration.php:188-202 | after saving, an id shown is excluded exactly when its box is ticked, and an id not shown is as it was |
| ExcludedPlugins.EditPage | plugin_info/configuration.php:188-219 | the page's own steps: boxes ticked at first, boxes ticked now, text written; the ids read back are then exactly as the boxes say |
| Decimal.ParseIntText | resources/daemon/mapping/overrides.py:162-181 | reading the decimal text of an integer gives the integer back |
| Decimal.ParsePadded | resources/daemon/mapping/overrides.py:162-181 | blanks around an integer change nothing |
| Decimal.ParseIntMeaning | resources/daemon/mapping/overrides.py:162-173 | an integer is an optional sign, then digits; anything else is refused |
| Decimal.IntBodyMeaning | resources/daemon/mapping/overrides.py:162-173 | the digits may hold single underscores between two of them |

## Left out

- User interface, HTTP, the MQTT client, files, clocks and Jeedom core calls: they are parameters, or steps that may fail.
- Light, cover, climate, alarm, presence, button and fallback detection, and the ENERGY confidence cascade: each is a parameter that gives at most one entity for the whole equipment.
- Device classes, units, labels, causes' texts and name keys: parameters; only equality of their results matters.
- `resources/daemon/models/topology.py` and `resources/daemon/validation/ha_component_registry.py` are not part of this model; command and equipment fields are those the modelled code reads.
- Registry.MapAll: asks for distinct command ids, as Jeedom gives them; without it two entities could share a topic.
- SwitchGroups.GroupSwitchCmds: asks for distinct command ids, on which both algorithms rely to tell commands apart.
- WorkTree.TreeMatchesHouseChip: asks that rooms have different ids and that groups list each room at most once; rooms with one id would be drawn from the last of them only.
- ActionRelay.Daemon.Dispatch: the realignment counts for its timeout of 3 s; creating and removing listeners has no timeout in the source and is not timed.
- ClickValues.Reader.CollectClickValues: the variant without a deadline, which no route uses any more, is not modelled.
- RoomGroups.GroupRooms: takes `usort` as stable, which PHP promises from version 8.0 only; the order of children under earlier versions is not modelled.
- ExcludedPlugins.ComputeExcludedPlugins: JavaScript's trim is taken to remove the same blanks as PHP's.
- RoomExclusion.Toggle: asks of PHP only that the text of an integer be numeric and read back as that integer.
- Decimal.ParseIntText: Python also accepts digits and blanks outside ASCII; they are not modelled.
- Fragment.RoundTripExactlyWhen: numbers that are not integers are not modelled.
- Callbacks of the reader that call it back from `onUpdate`, and `decide_publication_fn` other than the default.
- Stored overrides whose entry is not an object, and causes or ids equal to names JavaScript objects inherit.
- Overview.ComputeRoom: the HomeKit mark of a row is not modelled; it is copied from the entry and nothing counts it.
- WorkTree.BuildTree: names, icons and colours of the rooms, which are copied from the page's list.
- DiscoveryPublisher.SaveCache: whether a secondary is published is a field of what is saved, not recomputed from its decision.
- The treat list of the work view, names, labels, payload fields, parity class and the browser history.
