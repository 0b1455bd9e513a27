/** The non-player characters revealed by completed checklist items, kept in
    a dictionary keyed by name together with the favourite and dead marks. */
module Npcs {

  datatype NpcInfo = NpcInfo(name: string, description: string, stats: string)

  datatype NpcEntry = NpcEntry(info: NpcInfo, favorite: bool, dead: bool)

  /** The NPCs each checklist item reveals. */
  const NpcData: map<string, seq<NpcInfo>> := map[
    "Introduction - Meet the NPC" := [
      NpcInfo("Gorath the Brave", "A fearless warrior with a mysterious past.", "HP: 50, AC: 16, STR: 18")],
    "Find the Hidden Cave" := [
      NpcInfo("Mira the Scout", "A skilled tracker who knows the wilderness.", "HP: 30, AC: 14, DEX: 16")]
  ]

  function NamesOf(npcs: seq<NpcInfo>): set<string> {
    set n | n in npcs :: n.name
  }

  /** A newly listed NPC: neither favourite nor dead. */
  function Fresh(npc: NpcInfo): NpcEntry {
    NpcEntry(npc, false, false)
  }

  /** Lists `npc` unless an entry under its name exists already. */
  function AddOne(relevant: map<string, NpcEntry>, npc: NpcInfo): map<string, NpcEntry> {
    if npc.name in relevant then relevant else relevant[npc.name := Fresh(npc)]
  }

  /** Lists each NPC of `npcs` in turn. */
  function AddAll(relevant: map<string, NpcEntry>, npcs: seq<NpcInfo>): map<string, NpcEntry> {
    if npcs == [] then relevant
    else AddOne(AddAll(relevant, npcs[..|npcs| - 1]), npcs[|npcs| - 1])
  }

  /** Deletes the entry of each NPC of `npcs` in turn. */
  function RemoveAll(relevant: map<string, NpcEntry>, npcs: seq<NpcInfo>): map<string, NpcEntry> {
    if npcs == [] then relevant
    else RemoveAll(relevant, npcs[..|npcs| - 1]) - {npcs[|npcs| - 1].name}
  }

  /** Completing a checklist item: its NPCs are listed, or nothing happens for an item without NPCs. */
  function AddRelevant(relevant: map<string, NpcEntry>, item: string): map<string, NpcEntry> {
    if item in NpcData then AddAll(relevant, NpcData[item]) else relevant
  }

  /** Un-completing a checklist item: its NPCs are delisted. */
  function RemoveRelevant(relevant: map<string, NpcEntry>, item: string): map<string, NpcEntry> {
    if item in NpcData then RemoveAll(relevant, NpcData[item]) else relevant
  }

  // ---------------------------------------------------------------------------
  // Properties

  /** Adding lists exactly the old names and the added ones; an existing entry
      keeps its marks; a new entry is an added NPC of that name with both marks clear. */
  lemma {:induction false} AddAllEffect(relevant: map<string, NpcEntry>, npcs: seq<NpcInfo>)
    ensures AddAll(relevant, npcs).Keys == relevant.Keys + NamesOf(npcs)
    ensures forall name | name in relevant :: AddAll(relevant, npcs)[name] == relevant[name]
    ensures forall name | name in AddAll(relevant, npcs) && name !in relevant ::
      var e := AddAll(relevant, npcs)[name];
      e.info in npcs && e.info.name == name && !e.favorite && !e.dead
  {
    if npcs != [] {
      var n := |npcs| - 1;
      AddAllEffect(relevant, npcs[..n]);
      assert npcs == npcs[..n] + [npcs[n]];
      assert NamesOf(npcs) == NamesOf(npcs[..n]) + {npcs[n].name};
      forall name | name in AddAll(relevant, npcs) && name !in relevant
        ensures AddAll(relevant, npcs)[name].info in npcs
      {
        if name in AddAll(relevant, npcs[..n]) {
          assert AddAll(relevant, npcs[..n])[name].info in npcs[..n];
        }
      }
    }
  }

  /** Removing deletes exactly the listed names and leaves every other entry as it was. */
  lemma {:induction false} RemoveAllEffect(relevant: map<string, NpcEntry>, npcs: seq<NpcInfo>)
    ensures RemoveAll(relevant, npcs) == relevant - NamesOf(npcs)
  {
    if npcs != [] {
      var n := |npcs| - 1;
      RemoveAllEffect(relevant, npcs[..n]);
      assert npcs == npcs[..n] + [npcs[n]];
      assert NamesOf(npcs) == NamesOf(npcs[..n]) + {npcs[n].name};
    }
  }

  /** Completing the same item twice lists nothing more. */
  lemma AddAllIdempotent(relevant: map<string, NpcEntry>, npcs: seq<NpcInfo>)
    ensures AddAll(AddAll(relevant, npcs), npcs) == AddAll(relevant, npcs)
  {
    var once := AddAll(relevant, npcs);
    AddAllEffect(once, npcs);
    AddAllEffect(relevant, npcs);
    assert AddAll(once, npcs).Keys == once.Keys;
  }

  /** Completing and then un-completing an item delists its NPCs, including
      any that were listed before it was completed. */
  lemma AddThenRemove(relevant: map<string, NpcEntry>, npcs: seq<NpcInfo>)
    ensures RemoveAll(AddAll(relevant, npcs), npcs) == relevant - NamesOf(npcs)
  {
    var added := AddAll(relevant, npcs);
    AddAllEffect(relevant, npcs);
    RemoveAllEffect(added, npcs);
    assert added - NamesOf(npcs) == relevant - NamesOf(npcs);
  }

  /** An item that reveals no NPCs changes nothing either way. */
  lemma UnknownItemUnchanged(relevant: map<string, NpcEntry>, item: string)
    requires item !in NpcData
    ensures AddRelevant(relevant, item) == relevant && RemoveRelevant(relevant, item) == relevant
  {
  }

  /** The favourite and dead marks are toggled on a listed entry only. */
  function ToggleFavorite(relevant: map<string, NpcEntry>, name: string): (r: map<string, NpcEntry>)
    requires name in relevant
    ensures r.Keys == relevant.Keys
    ensures r[name].favorite == !relevant[name].favorite
    ensures r[name].info == relevant[name].info && r[name].dead == relevant[name].dead
    ensures forall other | other in relevant && other != name :: r[other] == relevant[other]
  {
    relevant[name := relevant[name].(favorite := !relevant[name].favorite)]
  }

  function ToggleDead(relevant: map<string, NpcEntry>, name: string): (r: map<string, NpcEntry>)
    requires name in relevant
    ensures r.Keys == relevant.Keys
    ensures r[name].dead == !relevant[name].dead
    ensures r[name].info == relevant[name].info && r[name].favorite == relevant[name].favorite
    ensures forall other | other in relevant && other != name :: r[other] == relevant[other]
  {
    relevant[name := relevant[name].(dead := !relevant[name].dead)]
  }

  /** Marks survive re-completing an item: a favourite or dead NPC stays so. */
  lemma MarksSurviveAdd(relevant: map<string, NpcEntry>, item: string, name: string)
    requires name in relevant
    ensures name in AddRelevant(relevant, item)
    ensures AddRelevant(relevant, item)[name] == relevant[name]
  {
    if item in NpcData {
      AddAllEffect(relevant, NpcData[item]);
    }
  }
}
