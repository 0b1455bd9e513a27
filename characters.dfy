/** Player characters, stored in a dictionary keyed by name. */
module Characters {

  datatype Character = Character(name: string, race: string, level: string, characterClass: string)

  /** Stores `c` under its name, replacing any character of that name. */
  function StoreCharacter(pcs: map<string, Character>, c: Character): (r: map<string, Character>)
    ensures r.Keys == pcs.Keys + {c.name}
    ensures r[c.name] == c
    ensures forall other | other in pcs && other != c.name :: r[other] == pcs[other]
  {
    pcs[c.name := c]
  }

  /** Storing a character is idempotent, and the later of two same-named characters wins. */
  lemma StoreOverwrites(pcs: map<string, Character>, c1: Character, c2: Character)
    requires c1.name == c2.name
    ensures StoreCharacter(StoreCharacter(pcs, c1), c2) == StoreCharacter(pcs, c2)
    ensures StoreCharacter(StoreCharacter(pcs, c2), c2) == StoreCharacter(pcs, c2)
  {
  }

  /** The listed names of a plain script object after `obj[c.name] = c`, as the
      script's dictionary behaves: the key "__proto__" runs the prototype setter
      and creates no own key, so it never reaches the key list. */
  function AssignAsWritten(pcs: map<string, Character>, c: Character): map<string, Character> {
    if c.name == "__proto__" then pcs else pcs[c.name := c]
  }

  /** A character named "__proto__" is accepted but never listed. */
  lemma ProtoNamedCharacterNotListed(pcs: map<string, Character>, c: Character)
    requires c.name == "__proto__" && c.name !in pcs
    ensures c.name !in AssignAsWritten(pcs, c)
    ensures c.name in StoreCharacter(pcs, c)
  {
  }
}
