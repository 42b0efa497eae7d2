/**
  The values read at the click of an action (`_jeedom2ha_collect_click_values` and its helpers of
  `jeedom2ha.ajax.php`): the scope is expanded, the commands are listed, and the values are read until a deadline.
  Calls into Jeedom take time and may raise.
 */
module ClickValues {
  import opened Prelude

  datatype Cmd = Cmd(id: int, info: bool)

  /** The scope asked for; an entry of the selection that is not made of digits is None. */
  datatype Scope = Equipments(selection: seq<Option<int>>) | Pieces(selection: seq<Option<int>>) | Everything
    | UnknownScope

  datatype Call = ExpandCall | ListCall | ReadCall

  /** The equipments, commands and values of Jeedom, and how its calls behave. */
  datatype Site = Site(pieceEqs: int -> seq<int>, allEqs: seq<int>, cmdsOf: int -> seq<Cmd>,
    valueOf: Cmd -> Option<string>,
                       time: (Call, nat) -> real, fails: nat -> bool)

  // ---------------------------------------------------------------------------------------
  // What is read
  // ---------------------------------------------------------------------------------------

  function Digits(selection: seq<Option<int>>): seq<int> {
    if selection == [] then []
    else Digits(selection[..|selection|-1]) + if selection[|selection|-1].Some? then [selection[|selection|-1].value]
      else []
  }

  function PieceEqs(ids: seq<int>, site: Site): seq<int> {
    if ids == [] then [] else PieceEqs(ids[..|ids|-1], site) + site.pieceEqs(ids[|ids|-1])
  }

  /** The equipments of the scope. */
  function EqIds(scope: Scope, site: Site): seq<int> {
    match scope
    case Equipments(selection) => Digits(selection)
    case Pieces(selection) => PieceEqs(Digits(selection), site)
    case Everything => site.allEqs
    case UnknownScope => []
  }

  function AllCmds(eqIds: seq<int>, site: Site): seq<Cmd> {
    if eqIds == [] then [] else AllCmds(eqIds[..|eqIds|-1], site) + site.cmdsOf(eqIds[|eqIds|-1])
  }

  predicate IsRead(c: Cmd) { c.info && c.id > 0 }

  /** The values of the commands, by id; a command without value is left out. */
  function ValuesOf(cmds: seq<Cmd>, site: Site): map<int, string> {
    if cmds == [] then map[]
    else
      var before, c := ValuesOf(cmds[..|cmds|-1], site), cmds[|cmds|-1];
      if IsRead(c) && site.valueOf(c).Some? then before[c.id := site.valueOf(c).value] else before
  }

  /** The equipments of a scope: those that are asked for, those of the rooms asked for, or all. */
  lemma EqIdsMeaning(scope: Scope, site: Site, id: int)
    ensures id in EqIds(scope, site) <==>
      match scope
      case Equipments(selection) => Some(id) in selection
      case Pieces(selection) => exists p :: Some(p) in selection && id in site.pieceEqs(p)
      case Everything => id in site.allEqs
      case UnknownScope => false
  {
    match scope
    case Equipments(selection) => DigitsMembers(selection, id);
    case Pieces(selection) =>
      PieceMembers(Digits(selection), site, id);
      forall p ensures p in Digits(selection) <==> Some(p) in selection {
        DigitsMembers(selection, p);
      }
    case Everything =>
    case UnknownScope =>
  }

  lemma {:induction false} DigitsMembers(selection: seq<Option<int>>, id: int)
    ensures id in Digits(selection) <==> Some(id) in selection
  {
    if selection != [] {
      DigitsMembers(selection[..|selection|-1], id);
      assert selection == selection[..|selection|-1] + [selection[|selection|-1]];
    }
  }

  lemma {:induction false} PieceMembers(ids: seq<int>, site: Site, id: int)
    ensures id in PieceEqs(ids, site) <==> exists p :: p in ids && id in site.pieceEqs(p)
  {
    if ids != [] {
      var front, last := ids[..|ids|-1], ids[|ids|-1];
      PieceMembers(front, site, id);
      assert forall p :: p in ids <==> p in front || p == last;
    }
  }

  lemma {:induction false} AllCmdsMembers(eqIds: seq<int>, site: Site, c: Cmd)
    ensures c in AllCmds(eqIds, site) <==> exists e :: e in eqIds && c in site.cmdsOf(e)
  {
    if eqIds != [] {
      var front, last := eqIds[..|eqIds|-1], eqIds[|eqIds|-1];
      AllCmdsMembers(front, site, c);
      assert forall e :: e in eqIds <==> e in front || e == last;
    }
  }

  /** Every information command that has a positive id and a value gives one, the last of an id its own. */
  lemma {:induction false} EveryValueIsSent(cmds: seq<Cmd>, site: Site, k: nat)
    requires k < |cmds| && cmds[k].info && cmds[k].id > 0 && site.valueOf(cmds[k]).Some?
    ensures cmds[k].id in ValuesOf(cmds, site)
    ensures (forall j :: k < j < |cmds| ==> cmds[j].id != cmds[k].id) ==>
      Some(ValuesOf(cmds, site)[cmds[k].id]) == site.valueOf(cmds[k])
  {
    var n := |cmds| - 1;
    if k < n {
      EveryValueIsSent(cmds[..n], site, k);
    }
  }

  /** Only values of information commands of the scope are sent, each the value last read for its id. */
  lemma {:induction false} ValuesComeFromTheScope(cmds: seq<Cmd>, site: Site, id: int)
    requires id in ValuesOf(cmds, site)
    ensures id > 0
    ensures exists k ::
      0 <= k < |cmds| && cmds[k].id == id && cmds[k].info && site.valueOf(cmds[k]) == Some(ValuesOf(cmds, site)[id])
  {
    var n := |cmds| - 1;
    if cmds[n].id == id && IsRead(cmds[n]) && site.valueOf(cmds[n]).Some? {
      assert ValuesOf(cmds, site)[id] == site.valueOf(cmds[n]).value;
    } else {
      ValuesComeFromTheScope(cmds[..n], site, id);
      var k :| 0 <= k < n && cmds[..n][k].id == id && cmds[..n][k].info
        && site.valueOf(cmds[..n][k]) == Some(ValuesOf(cmds[..n], site)[id]);
      assert cmds[k].id == id;
    }
  }

  // ---------------------------------------------------------------------------------------
  // Reading within the deadline
  // ---------------------------------------------------------------------------------------

  class Reader {
    const site: Site
    var clock: real
    var calls: nat

    constructor (at: Site, now: real)
      ensures site == at && clock == now && calls == 0
    {
      site, clock, calls := at, now, 0;
    }

    /** Any call takes its time, whether it fails or not. */
    method Spend(call: Call) returns (ok: bool)
      modifies this
      ensures calls == old(calls) + 1 && clock == old(clock) + site.time(call, old(calls))
      ensures ok == !site.fails(old(calls))
    {
      ok := !site.fails(calls);
      clock := clock + site.time(call, calls);
      calls := calls + 1;
    }

    predicate NoFailure(since: nat)
      reads this
    {
      forall k :: since <= k < calls ==> !site.fails(k)
    }

    /** The equipments of the rooms of the selection, in order. */
    method ExpandPieces(selection: seq<Option<int>>) returns (eqIds: Option<seq<int>>)
      requires forall k :: site.time(ExpandCall, k) >= 0.0
      modifies this
      ensures clock >= old(clock) && calls >= old(calls)
      ensures eqIds.Some? ==> eqIds.value == PieceEqs(Digits(selection), site)
      ensures eqIds.Some? <==> NoFailure(old(calls))
    {
      hide PieceEqs, Digits;
      var ids: seq<int> := [];
      assert selection[..0] == [];
      NoPieces(site);
      for i := 0 to |selection|
        invariant ids == PieceEqs(Digits(selection[..i]), site)
        invariant clock >= old(clock) && calls >= old(calls) && NoFailure(old(calls))
      {
        assert selection[..i+1] == selection[..i] + [selection[i]];
        PiecesStep(selection[..i], selection[i], site);
        if selection[i].None? {
          continue;
        }
        var ok := Spend(ExpandCall);
        if !ok {
          return None;
        }
        ids := ids + site.pieceEqs(selection[i].value);
      }
      assert selection[..|selection|] == selection;
      eqIds := Some(ids);
    }

    /** `_jeedom2ha_expand_portee_to_eq_ids`. */
    method ExpandScope(scope: Scope) returns (eqIds: Option<seq<int>>)
      requires forall k :: site.time(ExpandCall, k) >= 0.0
      modifies this
      ensures clock >= old(clock) && calls >= old(calls)
      ensures eqIds.Some? ==> eqIds.value == EqIds(scope, site)
      ensures eqIds.Some? <==> NoFailure(old(calls))
    {
      hide PieceEqs;
      var ids: seq<int> := [];
      match scope {
        case Equipments(selection) =>
          for i := 0 to |selection|
            invariant ids == Digits(selection[..i]) && clock == old(clock) && calls == old(calls)
          {
            assert selection[..i+1][..i] == selection[..i];
            if selection[i].Some? {
              ids := ids + [selection[i].value];
            }
          }
          assert selection[..|selection|] == selection;
        case Pieces(selection) =>
          eqIds := ExpandPieces(selection);
          return eqIds;
        case Everything =>
          var ok := Spend(ExpandCall);
          if !ok {
            return None;
          }
          ids := site.allEqs;
        case UnknownScope =>
      }
      eqIds := Some(ids);
    }

    /** `_jeedom2ha_read_current_values_bounded`. */
    method ReadBounded(cmds: seq<Cmd>, deadline: real, ghost limit: real)
      returns (values: Option<map<int, string>>, ghost count: nat)
      requires forall k :: 0.0 <= site.time(ReadCall, k) <= limit
      modifies this
      ensures clock >= old(clock) && calls >= old(calls)
      ensures values.Some? ==> count <= |cmds| && values.value == ValuesOf(cmds[..count], site)
      ensures values.Some? && clock - old(clock) < deadline ==> count == |cmds|
      ensures values.Some? <==> NoFailure(old(calls))
      ensures clock == old(clock) || (deadline > 0.0 && clock - old(clock) <= deadline + limit)
    {
      var start := clock;
      var read: map<int, string> := map[];
      count := 0;
      for i := 0 to |cmds|
        invariant count == i && read == ValuesOf(cmds[..i], site)
        invariant clock >= start && calls >= old(calls) && NoFailure(old(calls))
        invariant clock == start || (deadline > 0.0 && clock - start <= deadline + limit)
      {
        if clock - start >= deadline {
          return Some(read), count;
        }
        assert cmds[..i+1][..i] == cmds[..i];
        var c := cmds[i];
        if IsRead(c) {
          var ok := Spend(ReadCall);
          if !ok {
            return None, count;
          }
          if site.valueOf(c).Some? {
            read := read[c.id := site.valueOf(c).value];
          }
        }
        count := i + 1;
      }
      assert cmds[..|cmds|] == cmds;
      values := Some(read);
    }

    /**
      `_jeedom2ha_collect_click_values`.  `expansion` is the time the scope took.  Nothing stops the expansion;
      from there at most one call runs past the deadline.
    */
    method CollectClickValues(scope: Scope, deadline: real, ghost limit: real)
      returns (values: Option<map<int, string>>, ghost expansion: real, ghost count: nat)
      requires forall k :: 0.0 <= site.time(ExpandCall, k)
      requires forall k :: 0.0 <= site.time(ListCall, k) <= limit && 0.0 <= site.time(ReadCall, k) <= limit
      modifies this
      ensures expansion >= 0.0 && 0.0 <= clock - old(clock) <= Max(expansion, deadline + limit)
      ensures values.Some? <==> NoFailure(old(calls))
      ensures var cmds := AllCmds(EqIds(scope, site), site);
        values.Some? ==>
          && count <= |cmds| && values.value == ValuesOf(cmds[..count], site)
          && (clock - old(clock) < deadline ==> count == |cmds|)
    {
      hide EqIds, ValuesOf, IsRead;
      var start := clock;
      assert limit >= 0.0 by { assert 0.0 <= site.time(ListCall, 0) <= limit; }
      count := 0;
      NothingRead(site);
      var expanded := ExpandScope(scope);
      expansion := clock - start;
      if expanded.None? {
        return None, expansion, count;
      }
      var eqIds := expanded.value;
      var cmds: seq<Cmd> := [];
      ghost var since := old(calls);
      for i := 0 to |eqIds|
        invariant cmds == AllCmds(eqIds[..i], site)
        invariant clock >= start + expansion && calls >= since && NoFailure(since)
        invariant clock - start == expansion || clock - start <= deadline + limit
      {
        if clock - start >= deadline {
          assert AllCmds(eqIds, site)[..0] == [];
          return Some(map[]), expansion, count;
        }
        assert eqIds[..i+1][..i] == eqIds[..i];
        var ok := Spend(ListCall);
        if !ok {
          return None, expansion, count;
        }
        cmds := cmds + site.cmdsOf(eqIds[i]);
      }
      assert eqIds[..|eqIds|] == eqIds;
      var remaining := Max(0.0, deadline - (clock - start));
      values, count := ReadBounded(cmds, remaining, limit);
    }
  }

  lemma NoPieces(site: Site)
    ensures PieceEqs(Digits([]), site) == []
  {
  }

  lemma PiecesStep(selection: seq<Option<int>>, entry: Option<int>, site: Site)
    ensures PieceEqs(Digits(selection + [entry]), site) == PieceEqs(Digits(selection), site) + if entry.Some? then
        site.pieceEqs(entry.value)
      else []
  {
    assert (selection + [entry])[..|selection|] == selection;
    var before := Digits(selection);
    if entry.Some? {
      assert (before + [entry.value])[..|before|] == before;
    } else {
      assert Digits(selection + [entry]) == before;
    }
  }

  lemma NothingRead(site: Site)
    ensures ValuesOf([], site) == map[]
  {
  }
}
