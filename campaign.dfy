/** The dashboard's NPC and player-character state as the page keeps it:
    dictionaries updated by key, and the two list selections. */
module Campaign {
  import opened Common
  import opened Npcs
  import opened Characters
  import Selection

  class Dashboard {
    var relevantNPCs: map<string, NpcEntry>
    var playerCharacters: map<string, Character>
    var selectedNPC: Option<Selection.ItemId>
    var markedNPCItems: set<Selection.ItemId>
    var selectedPC: Option<Selection.ItemId>
    var markedPCItems: set<Selection.ItemId>

    ghost predicate Valid()
      reads this
    {
      Selection.Coherent(Selection.SelectState(selectedNPC, markedNPCItems)) &&
      Selection.Coherent(Selection.SelectState(selectedPC, markedPCItems))
    }

    constructor ()
      ensures Valid()
      ensures relevantNPCs == map[] && playerCharacters == map[]
      ensures selectedNPC == None && selectedPC == None
    {
      relevantNPCs := map[];
      playerCharacters := map[];
      selectedNPC := None;
      markedNPCItems := {};
      selectedPC := None;
      markedPCItems := {};
    }

    /** Completing a checklist item lists its NPCs, keeping existing entries. */
    method AddRelevantNPCs(checkedItem: string)
      modifies this`relevantNPCs
      ensures relevantNPCs == AddRelevant(old(relevantNPCs), checkedItem)
    {
      if checkedItem in NpcData {
        var npcs := NpcData[checkedItem];
        var i := 0;
        while i < |npcs|
          invariant 0 <= i <= |npcs|
          invariant relevantNPCs == AddAll(old(relevantNPCs), npcs[..i])
        {
          var npc := npcs[i];
          if npc.name !in relevantNPCs {
            relevantNPCs := relevantNPCs[npc.name := Fresh(npc)];
          }
          assert npcs[..i + 1][..i] == npcs[..i];
          i := i + 1;
        }
        assert npcs[..i] == npcs;
      }
    }

    /** Un-completing a checklist item delists its NPCs. */
    method RemoveRelevantNPCs(checkedItem: string)
      modifies this`relevantNPCs
      ensures relevantNPCs == RemoveRelevant(old(relevantNPCs), checkedItem)
    {
      if checkedItem in NpcData {
        var npcs := NpcData[checkedItem];
        var i := 0;
        while i < |npcs|
          invariant 0 <= i <= |npcs|
          invariant relevantNPCs == RemoveAll(old(relevantNPCs), npcs[..i])
        {
          relevantNPCs := relevantNPCs - {npcs[i].name};
          assert npcs[..i + 1][..i] == npcs[..i];
          i := i + 1;
        }
        assert npcs[..i] == npcs;
      }
    }

    /** The star icon of a listed NPC. */
    method ClickStar(name: string)
      requires name in relevantNPCs
      modifies this`relevantNPCs
      ensures relevantNPCs == ToggleFavorite(old(relevantNPCs), name)
    {
      var npc := relevantNPCs[name];
      relevantNPCs := relevantNPCs[name := npc.(favorite := !npc.favorite)];
    }

    /** The skull icon of a listed NPC. */
    method ClickSkull(name: string)
      requires name in relevantNPCs
      modifies this`relevantNPCs
      ensures relevantNPCs == ToggleDead(old(relevantNPCs), name)
    {
      var npc := relevantNPCs[name];
      relevantNPCs := relevantNPCs[name := npc.(dead := !npc.dead)];
    }

    method SelectNPC(npcItem: Selection.ItemId)
      requires Valid()
      modifies this`selectedNPC, this`markedNPCItems
      ensures Valid()
      ensures Selection.SelectState(selectedNPC, markedNPCItems) ==
        Selection.Toggle(old(Selection.SelectState(selectedNPC, markedNPCItems)), npcItem)
    {
      if selectedNPC == Some(npcItem) {
        markedNPCItems := markedNPCItems - {npcItem};
        selectedNPC := None;
      } else {
        if selectedNPC.Some? {
          markedNPCItems := markedNPCItems - {selectedNPC.value};
        }
        markedNPCItems := markedNPCItems + {npcItem};
        selectedNPC := Some(npcItem);
      }
    }

    method SelectPC(characterItem: Selection.ItemId)
      requires Valid()
      modifies this`selectedPC, this`markedPCItems
      ensures Valid()
      ensures Selection.SelectState(selectedPC, markedPCItems) ==
        Selection.Toggle(old(Selection.SelectState(selectedPC, markedPCItems)), characterItem)
    {
      if selectedPC == Some(characterItem) {
        markedPCItems := markedPCItems - {characterItem};
        selectedPC := None;
      } else {
        if selectedPC.Some? {
          markedPCItems := markedPCItems - {selectedPC.value};
        }
        markedPCItems := markedPCItems + {characterItem};
        selectedPC := Some(characterItem);
      }
    }

    /** Stores a submitted character under its name, replacing any of that name. */
    method AddCharacterToList(character: Character)
      modifies this`playerCharacters
      ensures playerCharacters == StoreCharacter(old(playerCharacters), character)
    {
      playerCharacters := playerCharacters[character.name := character];
    }
  }
}
