/** What accepting or refusing an account list says of the accounts' own fields. */
module AccountFields {
  import opened Wrappers
  import opened AccountMatch

  /** The account has the entry's name and flags and a 32-byte key for an address: the entry's own
      fixed address, or, for an entry named "program" without one, the specification's program id.
      TypeScript pins nothing to an empty string. */
  predicate StandsFor(a: Account, e: Expected, programId: string, language: Language) {
    && a.name == e.name && a.writable == e.writable && a.signer == e.signer
    && ValidKey(a.address)
    && (e.fixedAddress.Some? && (language == Rust || e.fixedAddress.value != "") ==> a.address == e.fixedAddress.value)
    && (e.fixedAddress.None? && e.name == "program" && (language == Rust || programId != "") ==> a.address == programId)
  }

  lemma SuitsInFields(e: Expected, programId: string, language: Language, a: Account)
    ensures Suits(e, programId, language, a) <==> StandsFor(a, e, programId, language)
  {
  }

  /** An accepted list, in fields: some optional entries are dropped, and the accounts stand one by
      one for the entries that are kept. */
  lemma AcceptedInFields(s: Specification, language: Language, accounts: seq<Account>) returns (keep: seq<bool>)
    requires Match(s.accounts, s.programId, language, accounts).None?
    ensures |keep| == |s.accounts| && |accounts| == |Kept(s.accounts, keep)|
    ensures forall i :: 0 <= i < |keep| && !keep[i] ==> s.accounts[i].optional
    ensures forall i :: 0 <= i < |accounts| ==>
              StandsFor(accounts[i], Kept(s.accounts, keep)[i], s.programId, language)
  {
    AcceptedIsAllowed(s.accounts, s.programId, language, accounts);
    keep := AllowedHasChoice(s.accounts, s.programId, language, accounts);
    forall i | 0 <= i < |accounts|
      ensures StandsFor(accounts[i], Kept(s.accounts, keep)[i], s.programId, language)
    {
      SuitsInFields(Kept(s.accounts, keep)[i], s.programId, language, accounts[i]);
    }
  }

  /** Why a list is refused at an entry, the first `i` accounts being taken by the entries before. */
  predicate RefusedAt(entries: seq<Expected>, programId: string, language: Language, accounts: seq<Account>,
                      k: nat, i: nat, code: MatchError)
    requires k <= |entries| && i <= |accounts|
  {
    if k == |entries| then i < |accounts| && code == AccountOrderMismatch
    else
      var e := entries[k];
      if i < |accounts| && accounts[i].name == e.name then
        match code
        case InvalidPubkey => !ValidKey(accounts[i].address)
        case AccountFlagsMismatch =>
          ValidKey(accounts[i].address) && !(accounts[i].writable == e.writable && accounts[i].signer == e.signer)
        case FixedAddressMismatch =>
          && ValidKey(accounts[i].address) && accounts[i].writable == e.writable && accounts[i].signer == e.signer
          && !StandsFor(accounts[i], e, programId, language)
        case _ => false
      else
        && !e.optional
        && (code == AccountOrderMismatch || code == MissingRequiredAccount)
        && (code == AccountOrderMismatch <==> i < |accounts| && NameOccurs(accounts[i + 1..], e.name))
  }

  /** A refused list has an entry before which all went well and at which it is refused with the
      code that fits. */
  lemma {:induction false} RefusedInFields(entries: seq<Expected>, programId: string, language: Language,
      accounts: seq<Account>)
    returns (k: nat, i: nat)
    requires Match(entries, programId, language, accounts).Some?
    ensures k <= |entries| && i <= |accounts|
    ensures Match(entries[..k], programId, language, accounts[..i]).None?
    ensures RefusedAt(entries, programId, language, accounts, k, i, Match(entries, programId, language, accounts).value)
  {
    k, i := 0, 0;
    if entries != [] {
      var e := entries[0];
      var taken := accounts != [] && accounts[0].name == e.name;
      if taken {
        SuitsInFields(e, programId, language, accounts[0]);
      }
      if (taken && Suits(e, programId, language, accounts[0])) || (!taken && e.optional) {
        var others := if taken then accounts[1..] else accounts;
        var x, y := RefusedInFields(entries[1..], programId, language, others);
        k, i := x + 1, if taken then y + 1 else y;
        RefusedLater(entries, programId, language, accounts, x, y, taken,
                     Match(entries, programId, language, accounts).value);
      }
    }
  }

  lemma RefusedLater(entries: seq<Expected>, programId: string, language: Language, accounts: seq<Account>,
      x: nat, y: nat, taken: bool, code: MatchError)
    requires entries != [] && x <= |entries| - 1 && (taken ==> accounts != [])
    requires var others := if taken then accounts[1..] else accounts;
             && y <= |others| && Match(entries[1..][..x], programId, language, others[..y]).None?
             && RefusedAt(entries[1..], programId, language, others, x, y, code)
    requires taken ==> Suits(entries[0], programId, language, accounts[0])
    requires !taken ==> entries[0].optional && (accounts == [] || accounts[0].name != entries[0].name)
    ensures var i := if taken then y + 1 else y;
            && Match(entries[..x + 1], programId, language, accounts[..i]).None?
            && RefusedAt(entries, programId, language, accounts, x + 1, i, code)
  {
    assert entries[..x + 1][1..] == entries[1..][..x];
    if taken {
      assert accounts[..y + 1][1..] == accounts[1..][..y];
      assert accounts[1..][y..] == accounts[y + 1..];
      if y < |accounts| - 1 {
        assert accounts[1..][y] == accounts[y + 1] && accounts[1..][y + 1..] == accounts[y + 2..];
      }
    }
    if x < |entries| - 1 {
      assert entries[1..][x] == entries[x + 1];
    }
  }
}
