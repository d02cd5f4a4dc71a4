/** Settlement states of arbiter/api.py: the world in which a contract pays. */
module Settlement {
  import opened Options
  import opened Text

  datatype Slot = Yes | No {
    function Other(): Slot { if Yes? then No else Yes }
    function Label(): string { if Yes? then "YES" else "NO" }
  }

  datatype Party = Democratic | Republican {
    function Opponent(): Party { if Democratic? then Republican else Democratic }
    function StateLabel(): string { if Democratic? then "DEMOCRATS_WIN" else "REPUBLICANS_WIN" }
  }

  const DEMOCRATIC_TOKENS := ["dem", "dems", "democrat", "democrats", "democratic"]
  const REPUBLICAN_TOKENS := ["gop", "rep", "republican", "republicans"]

  predicate Mentions(canonical: string, tokens: seq<string>) {
    exists w :: w in Words(canonical) && w in tokens
  }

  /** _canonical_party: the Democratic tokens are looked for first. */
  function PartyOf(canonical: string): Option<Party> {
    if Mentions(canonical, DEMOCRATIC_TOKENS) then Some(Democratic)
    else if Mentions(canonical, REPUBLICAN_TOKENS) then Some(Republican)
    else None
  }

  function StateOf(party: Option<Party>, canonical: string, slot: Slot): string {
    match party
    case None => canonical + ":" + slot.Label()
    case Some(p) => if slot.Yes? then p.StateLabel() else p.Opponent().StateLabel()
  }

  /** _settlement_state */
  function SettlementState(canonical: string, slot: Slot): string {
    StateOf(PartyOf(canonical), canonical, slot)
  }

  predicate EndsWith(s: string, suffix: string) {
    |suffix| <= |s| && s[|s| - |suffix|..] == suffix
  }

  /** _complement_state */
  function Complement(state: string): string {
    if state == "DEMOCRATS_WIN" then "REPUBLICANS_WIN"
    else if state == "REPUBLICANS_WIN" then "DEMOCRATS_WIN"
    else if EndsWith(state, ":YES") then state[..|state| - 4] + ":NO"
    else if EndsWith(state, ":NO") then state[..|state| - 3] + ":YES"
    else "NOT[" + state + "]"
  }

  lemma Ending(canonical: string, suffix: string, last: char)
    requires suffix != "" && suffix[|suffix| - 1] == last
    ensures var s := canonical + suffix;
      s[|s| - 1] == last && EndsWith(s, suffix) && s[..|s| - |suffix|] == canonical
  {
    var s := canonical + suffix;
    assert s[|s| - |suffix|..] == suffix;
  }

  lemma OtherEnding(s: string, suffix: string)
    requires s != "" && suffix != "" && s[|s| - 1] != suffix[|suffix| - 1]
    ensures !EndsWith(s, suffix) && s != suffix
  {
    assert |suffix| <= |s| ==> s[|s| - |suffix|..][|suffix| - 1] == s[|s| - 1];
  }

  lemma ComplementYes(canonical: string)
    ensures Complement(canonical + ":YES") == canonical + ":NO"
  {
    Ending(canonical, ":YES", 'S');
    OtherEnding(canonical + ":YES", "DEMOCRATS_WIN");
    OtherEnding(canonical + ":YES", "REPUBLICANS_WIN");
  }

  lemma ComplementNo(canonical: string)
    ensures Complement(canonical + ":NO") == canonical + ":YES"
    ensures canonical + ":NO" != canonical + ":YES"
  {
    Ending(canonical, ":NO", 'O');
    Ending(canonical, ":YES", 'S');
    OtherEnding(canonical + ":NO", "DEMOCRATS_WIN");
    OtherEnding(canonical + ":NO", "REPUBLICANS_WIN");
    OtherEnding(canonical + ":NO", ":YES");
  }

  lemma OpaqueStateComplement(canonical: string, slot: Slot)
    ensures Complement(StateOf(None, canonical, slot)) == StateOf(None, canonical, slot.Other())
    ensures StateOf(None, canonical, slot) != StateOf(None, canonical, slot.Other())
  {
    ComplementYes(canonical);
    ComplementNo(canonical);
    assert canonical + ":" + "YES" == canonical + ":YES" && canonical + ":" + "NO" == canonical + ":NO";
  }

  /** The two slots of one canonical pay in distinct states, and complementing
      moves between them: so complementing twice is the identity on them. */
  lemma SlotsAreComplements(canonical: string, slot: Slot)
    ensures Complement(SettlementState(canonical, slot)) == SettlementState(canonical, slot.Other())
    ensures SettlementState(canonical, slot) != SettlementState(canonical, slot.Other())
    ensures Complement(Complement(SettlementState(canonical, slot))) == SettlementState(canonical, slot)
  {
    if PartyOf(canonical).None? {
      OpaqueStateComplement(canonical, slot);
      OpaqueStateComplement(canonical, slot.Other());
    }
  }

  /** The states by name.  A canonical with a Democratic word pays YES when the
      Democrats win and NO when the Republicans do; failing that, one with a
      Republican word the other way round; any other has states of its own. */
  lemma StatesByName(canonical: string)
    ensures (exists w :: w in Words(canonical) && w in ["dem", "dems", "democrat", "democrats", "democratic"]) ==>
      SettlementState(canonical, Yes) == "DEMOCRATS_WIN" && SettlementState(canonical, No) == "REPUBLICANS_WIN"
    ensures (forall w :: w in Words(canonical) ==> w !in ["dem", "dems", "democrat", "democrats", "democratic"]) ==>
      if exists w :: w in Words(canonical) && w in ["gop", "rep", "republican", "republicans"]
      then SettlementState(canonical, Yes) == "REPUBLICANS_WIN" && SettlementState(canonical, No) == "DEMOCRATS_WIN"
      else SettlementState(canonical, Yes) == canonical + ":YES" && SettlementState(canonical, No) == canonical + ":NO"
  {
    assert canonical + ":" + "YES" == canonical + ":YES" && canonical + ":" + "NO" == canonical + ":NO";
  }

  /** The swapped hedge: NO on one party is YES on the other. */
  lemma PartySwap(canonical: string, other: string, slot: Slot)
    requires PartyOf(canonical).Some? && PartyOf(other).Some? && PartyOf(canonical) != PartyOf(other)
    ensures SettlementState(canonical, slot) == SettlementState(other, slot.Other())
  {
  }
}
