/**
 Matching an instruction's accounts against its specification, in which some
 entries are optional: one greedy pass, in both languages.
 */
module AccountMatch {
  import opened Wrappers
  import Base58
  import Bytes

  datatype Account = Account(name: string, address: string, writable: bool, signer: bool)

  datatype Expected = Expected(
    name: string,
    writable: bool,
    signer: bool,
    optional: bool,
    fixedAddress: Option<string>)

  datatype Specification = Specification(programId: string, accounts: seq<Expected>)

  datatype MatchError =
    | MissingRequiredAccount
    | AccountOrderMismatch
    | InvalidPubkey
    | AccountFlagsMismatch
    | FixedAddressMismatch

  datatype Language = Rust | TypeScript

  predicate ValidKey(address: string) { Base58.Decode(address).Ok? }

  /** The address an account is pinned to. TypeScript takes an empty one for none. */
  function PinOf(e: Expected, programId: string, language: Language): Option<string> {
    var pin := if e.fixedAddress.Some? then e.fixedAddress
               else if e.name == "program" then Some(programId) else None;
    if language == TypeScript && pin == Some("") then None else pin
  }

  // ----- what a specification allows -----

  /** An account can stand for an entry. */
  predicate Suits(e: Expected, programId: string, language: Language, a: Account) {
    && a.name == e.name
    && ValidKey(a.address)
    && a.writable == e.writable
    && a.signer == e.signer
    && (PinOf(e, programId, language).Some? ==> a.address == PinOf(e, programId, language).value)
  }

  /** The entries that remain when those not in `keep` are dropped. */
  function Kept(entries: seq<Expected>, keep: seq<bool>): seq<Expected>
    requires |keep| == |entries|
  {
    if entries == [] then []
    else (if keep[0] then [entries[0]] else []) + Kept(entries[1..], keep[1..])
  }

  predicate OnlyOptionalDropped(entries: seq<Expected>, keep: seq<bool>)
    requires |keep| == |entries|
  {
    forall i :: 0 <= i < |entries| && !keep[i] ==> entries[i].optional
  }

  predicate SuitsAll(entries: seq<Expected>, programId: string, language: Language, accounts: seq<Account>) {
    |accounts| == |entries|
    && forall i :: 0 <= i < |entries| ==> Suits(entries[i], programId, language, accounts[i])
  }

  /** The accounts are the specification with some of its optional entries left out. */
  predicate Allows(s: Specification, language: Language, accounts: seq<Account>, keep: seq<bool>) {
    && |keep| == |s.accounts|
    && OnlyOptionalDropped(s.accounts, keep)
    && SuitsAll(Kept(s.accounts, keep), s.programId, language, accounts)
  }

  // ----- what the pass decides -----

  predicate NameOccurs(accounts: seq<Account>, name: string) {
    exists i :: 0 <= i < |accounts| && accounts[i].name == name
  }

  function Match(entries: seq<Expected>, programId: string, language: Language, accounts: seq<Account>)
    : Option<MatchError>
  {
    if entries == [] then if accounts == [] then None else Some(AccountOrderMismatch)
    else
      var e := entries[0];
      if accounts == [] || accounts[0].name != e.name then
        if e.optional then Match(entries[1..], programId, language, accounts)
        else if accounts != [] && NameOccurs(accounts[1..], e.name) then Some(AccountOrderMismatch)
        else Some(MissingRequiredAccount)
      else
        var a := accounts[0];
        if !ValidKey(a.address) then Some(InvalidPubkey)
        else if a.writable != e.writable || a.signer != e.signer then Some(AccountFlagsMismatch)
        else if PinOf(e, programId, language).Some? && a.address != PinOf(e, programId, language).value
        then Some(FixedAddressMismatch)
        else Match(entries[1..], programId, language, accounts[1..])
  }

  // ----- the code -----

  method NameIsLater(accounts: seq<Account>, from: nat, name: string) returns (later: bool)
    requires from <= |accounts|
    ensures later == NameOccurs(accounts[from..], name)
  {
    for k := from to |accounts|
      invariant forall i :: from <= i < k ==> accounts[i].name != name
    {
      if accounts[k].name == name {
        assert accounts[from..][k - from].name == name;
        return true;
      }
    }
    later := false;
  }

  /** `validate_accounts` and `#validateAccounts`. */
  method ValidateAccounts(s: Specification, language: Language, accounts: seq<Account>)
    returns (error: Option<MatchError>)
    ensures error == Match(s.accounts, s.programId, language, accounts)
  {
    var actualIndex := 0;
    for k := 0 to |s.accounts|
      invariant 0 <= actualIndex <= |accounts|
      invariant Match(s.accounts[k..], s.programId, language, accounts[actualIndex..])
                == Match(s.accounts, s.programId, language, accounts)
    {
      var expected := s.accounts[k];
      assert s.accounts[k..][1..] == s.accounts[k + 1..];
      var actual := if actualIndex < |accounts| then Some(accounts[actualIndex]) else None;
      if expected.optional && (actual.None? || actual.value.name != expected.name) {
        continue;
      }
      if actual.None? {
        return Some(MissingRequiredAccount);
      }
      assert accounts[actualIndex..][1..] == accounts[actualIndex + 1..];
      if actual.value.name != expected.name {
        var later := NameIsLater(accounts, actualIndex + 1, expected.name);
        return Some(if later then AccountOrderMismatch else MissingRequiredAccount);
      }
      var refused := Base58.RequirePubkey(actual.value.address);
      if refused.Some? {
        return Some(InvalidPubkey);
      }
      if actual.value.writable != expected.writable || actual.value.signer != expected.signer {
        return Some(AccountFlagsMismatch);
      }
      var pin := PinOf(expected, s.programId, language);
      if pin.Some? && pin.value != actual.value.address {
        return Some(FixedAddressMismatch);
      }
      actualIndex := actualIndex + 1;
    }
    if actualIndex != |accounts| {
      return Some(AccountOrderMismatch);
    }
    error := None;
  }

  // ----- allowed lists, entry by entry -----

  /** Each entry is dropped, if it is optional, or suited by the next account. */
  predicate Allowed(entries: seq<Expected>, programId: string, language: Language, accounts: seq<Account>) {
    if entries == [] then accounts == []
    else
      || (entries[0].optional && Allowed(entries[1..], programId, language, accounts))
      || (accounts != [] && Suits(entries[0], programId, language, accounts[0])
          && Allowed(entries[1..], programId, language, accounts[1..]))
  }

  lemma {:induction false} AllowedHasChoice(entries: seq<Expected>, programId: string, language: Language,
      accounts: seq<Account>)
    returns (keep: seq<bool>)
    requires Allowed(entries, programId, language, accounts)
    ensures Allows(Specification(programId, entries), language, accounts, keep)
  {
    if entries == [] {
      keep := [];
    } else if entries[0].optional && Allowed(entries[1..], programId, language, accounts) {
      var rest := AllowedHasChoice(entries[1..], programId, language, accounts);
      keep := [false] + rest;
      assert keep[1..] == rest;
    } else {
      var rest := AllowedHasChoice(entries[1..], programId, language, accounts[1..]);
      keep := [true] + rest;
      assert keep[1..] == rest;
      assert Kept(entries, keep) == [entries[0]] + Kept(entries[1..], rest);
    }
  }

  lemma {:induction false} ChoiceIsAllowed(entries: seq<Expected>, programId: string, language: Language,
      accounts: seq<Account>, keep: seq<bool>)
    requires Allows(Specification(programId, entries), language, accounts, keep)
    ensures Allowed(entries, programId, language, accounts)
  {
    if entries != [] {
      var kept := Kept(entries[1..], keep[1..]);
      if keep[0] {
        assert Kept(entries, keep) == [entries[0]] + kept;
        assert forall i :: 0 <= i < |kept| ==> Suits(kept[i], programId, language, accounts[1..][i]) by {
          forall i | 0 <= i < |kept| ensures Suits(kept[i], programId, language, accounts[1..][i]) {
            assert Kept(entries, keep)[i + 1] == kept[i];
          }
        }
        ChoiceIsAllowed(entries[1..], programId, language, accounts[1..], keep[1..]);
      } else {
        assert Kept(entries, keep) == kept;
        assert entries[0].optional;
        ChoiceIsAllowed(entries[1..], programId, language, accounts, keep[1..]);
      }
    }
  }

  /** Soundness, for every specification: an accepted list is the specification with some of
      its optional entries left out. */
  lemma {:induction false} AcceptedIsAllowed(entries: seq<Expected>, programId: string, language: Language,
      accounts: seq<Account>)
    requires Match(entries, programId, language, accounts).None?
    ensures Allowed(entries, programId, language, accounts)
  {
    if entries != [] {
      if accounts == [] || accounts[0].name != entries[0].name {
        AcceptedIsAllowed(entries[1..], programId, language, accounts);
      } else {
        AcceptedIsAllowed(entries[1..], programId, language, accounts[1..]);
      }
    }
  }

  // ----- which specifications the greedy pass handles completely -----

  predicate AllOptional(entries: seq<Expected>, from: nat, to: nat)
    requires to <= |entries|
  {
    forall k :: from <= k < to ==> entries[k].optional
  }

  /** Some account suits the entry. */
  predicate Satisfiable(e: Expected, programId: string, language: Language) {
    PinOf(e, programId, language).Some? ==> ValidKey(PinOf(e, programId, language).value)
  }

  /** Entry `i` may be dropped and the next account taken for entry `j` of the same name,
      but the greedy pass takes that account for entry `i`. */
  predicate Competes(entries: seq<Expected>, programId: string, language: Language, i: nat, j: nat)
    requires i < j < |entries|
  {
    && entries[i].name == entries[j].name
    && AllOptional(entries, i, j)
    && Satisfiable(entries[j], programId, language)
  }

  /** Taking it for entry `i` does no harm. */
  predicate Interchangeable(e: Expected, later: Expected, programId: string, language: Language) {
    && later.optional
    && e.writable == later.writable && e.signer == later.signer
    && (PinOf(e, programId, language).None? || PinOf(e, programId, language) == PinOf(later, programId, language))
  }

  predicate Unambiguous(entries: seq<Expected>, programId: string, language: Language) {
    forall i, j :: 0 <= i < j < |entries| && Competes(entries, programId, language, i, j) ==>
      Interchangeable(entries[i], entries[j], programId, language)
  }

  predicate RequiredSatisfiable(entries: seq<Expected>, programId: string, language: Language) {
    forall i :: 0 <= i < |entries| && !entries[i].optional ==> Satisfiable(entries[i], programId, language)
  }

  lemma TailIsUnambiguous(entries: seq<Expected>, programId: string, language: Language)
    requires entries != [] && Unambiguous(entries, programId, language)
    ensures Unambiguous(entries[1..], programId, language)
  {
    var tail := entries[1..];
    forall i, j | 0 <= i < j < |tail| && Competes(tail, programId, language, i, j)
      ensures Interchangeable(tail[i], tail[j], programId, language)
    {
      forall k | i + 1 <= k < j + 1 ensures entries[k].optional {
        assert entries[k] == tail[k - 1];
      }
      assert Competes(entries, programId, language, i + 1, j + 1);
    }
  }

  /** The first account of an allowed list belongs to the first entry that is not dropped. */
  lemma {:induction false} FirstKept(entries: seq<Expected>, programId: string, language: Language,
                                     accounts: seq<Account>)
    returns (j: nat)
    requires accounts != [] && Allowed(entries, programId, language, accounts)
    ensures j < |entries| && AllOptional(entries, 0, j)
    ensures Suits(entries[j], programId, language, accounts[0])
    ensures Allowed(entries[j + 1..], programId, language, accounts[1..])
  {
    if entries[0].optional && Allowed(entries[1..], programId, language, accounts) {
      var k := FirstKept(entries[1..], programId, language, accounts);
      j := k + 1;
      assert entries[1..][k + 1..] == entries[j + 1..];
      forall n | 0 <= n < j ensures entries[n].optional {
        assert n > 0 ==> entries[n] == entries[1..][n - 1];
      }
    } else {
      j := 0;
    }
  }

  lemma {:induction false} RunDropped(entries: seq<Expected>, programId: string, language: Language, run: nat,
      accounts: seq<Account>)
    requires run <= |entries| && AllOptional(entries, 0, run)
    requires Allowed(entries[run..], programId, language, accounts)
    ensures Allowed(entries, programId, language, accounts)
  {
    if run == 0 {
      assert entries[0..] == entries;
    } else {
      assert entries[1..][run - 1..] == entries[run..];
      RunDropped(entries[1..], programId, language, run - 1, accounts);
    }
  }

  /** Completeness: the pass accepts every allowed list of an unambiguous specification. */
  lemma {:induction false} AllowedIsAccepted(entries: seq<Expected>, programId: string, language: Language,
      accounts: seq<Account>)
    requires Unambiguous(entries, programId, language) && Allowed(entries, programId, language, accounts)
    ensures Match(entries, programId, language, accounts).None?
  {
    if entries != [] {
      var e, tail := entries[0], entries[1..];
      TailIsUnambiguous(entries, programId, language);
      if e.optional && Allowed(tail, programId, language, accounts) {
        if accounts == [] || accounts[0].name != e.name {
          AllowedIsAccepted(tail, programId, language, accounts);
        } else {
          var j := FirstKept(tail, programId, language, accounts);
          forall k | 0 <= k < j + 1 ensures entries[k].optional {
            assert k > 0 ==> entries[k] == tail[k - 1];
          }
          assert Competes(entries, programId, language, 0, j + 1);
          RunDropped(tail, programId, language, j + 1, accounts[1..]);
          AllowedIsAccepted(tail, programId, language, accounts[1..]);
        }
      } else {
        AllowedIsAccepted(tail, programId, language, accounts[1..]);
      }
    }
  }

  // ----- and no other specification -----

  lemma OtherKey(avoid: string) returns (key: string)
    ensures ValidKey(key) && key != avoid
  {
    var zeros: seq<Bytes.byte> := Bytes.Zeros(32);
    var ones: seq<Bytes.byte> := seq(32, _ => 1);
    assert zeros[0] != ones[0];
    Base58.DecodeOfEncode(zeros);
    Base58.DecodeOfEncode(ones);
    key := if Base58.Text(zeros) == avoid then Base58.Text(ones) else Base58.Text(zeros);
  }

  /** An account made to suit an entry. */
  function Sample(e: Expected, programId: string, language: Language, key: string): Account {
    var pin := PinOf(e, programId, language);
    Account(e.name, if pin.Some? then pin.value else key, e.writable, e.signer)
  }

  /** One account for every entry that can have one. */
  function Full(entries: seq<Expected>, programId: string, language: Language, key: string): seq<Account> {
    if entries == [] then []
    else
      (if Satisfiable(entries[0], programId, language) then [Sample(entries[0], programId, language, key)] else [])
      + Full(entries[1..], programId, language, key)
  }

  lemma FullStarts(entries: seq<Expected>, programId: string, language: Language, key: string, i: nat,
                   rest: seq<Account>)
    requires 0 < i <= |entries|
    ensures Full(entries[..i], programId, language, key) + rest ==
            (if Satisfiable(entries[0], programId, language) then [Sample(entries[0], programId, language, key)]
             else [])
            + (Full(entries[1..][..i - 1], programId, language, key) + rest)
  {
    assert entries[..i][1..] == entries[1..][..i - 1];
  }

  lemma FirstPasses(entries: seq<Expected>, programId: string, language: Language, key: string, more: seq<Account>)
    requires entries != [] && (entries[0].optional || Satisfiable(entries[0], programId, language)) && ValidKey(key)
    requires Match(entries, programId, language,
                   (if Satisfiable(entries[0], programId, language)
                    then [Sample(entries[0], programId, language, key)] else [])
                   + more).None?
    ensures Match(entries[1..], programId, language, more).None?
  {
    if Satisfiable(entries[0], programId, language) {
      assert ([Sample(entries[0], programId, language, key)] + more)[1..] == more;
    } else {
      assert [] + more == more;
    }
  }

  /** Offered an account for every entry before `i` that can have one, the pass can only
      accept by going on to accept the rest from entry `i`. */
  lemma {:induction false} PrefixPasses(entries: seq<Expected>, programId: string, language: Language, key: string,
                                        i: nat, rest: seq<Account>)
    requires i <= |entries| && RequiredSatisfiable(entries, programId, language) && ValidKey(key)
    requires Match(entries, programId, language, Full(entries[..i], programId, language, key) + rest).None?
    ensures Match(entries[i..], programId, language, rest).None?
  {
    if i == 0 {
      assert Full(entries[..0], programId, language, key) + rest == rest && entries[0..] == entries;
    } else {
      FullStarts(entries, programId, language, key, i, rest);
      FirstPasses(entries, programId, language, key, Full(entries[1..][..i - 1], programId, language, key) + rest);
      PrefixPasses(entries[1..], programId, language, key, i - 1, rest);
      assert entries[1..][i - 1..] == entries[i..];
    }
  }

  lemma {:induction false} PrefixAllowed(entries: seq<Expected>, programId: string, language: Language, key: string,
                                         i: nat, rest: seq<Account>)
    requires i <= |entries| && RequiredSatisfiable(entries, programId, language) && ValidKey(key)
    requires Allowed(entries[i..], programId, language, rest)
    ensures Allowed(entries, programId, language, Full(entries[..i], programId, language, key) + rest)
  {
    if i == 0 {
      assert Full(entries[..0], programId, language, key) + rest == rest && entries[0..] == entries;
    } else {
      assert entries[1..][i - 1..] == entries[i..];
      PrefixAllowed(entries[1..], programId, language, key, i - 1, rest);
      var more := Full(entries[1..][..i - 1], programId, language, key) + rest;
      FullStarts(entries, programId, language, key, i, rest);
      if Satisfiable(entries[0], programId, language) {
        assert ([Sample(entries[0], programId, language, key)] + more)[1..] == more;
      } else {
        assert [] + more == more;
      }
    }
  }

  /** One account for every required entry, and none for the others. */
  function Least(entries: seq<Expected>, programId: string, language: Language, key: string): seq<Account> {
    if entries == [] then []
    else
      (if entries[0].optional then [] else [Sample(entries[0], programId, language, key)])
      + Least(entries[1..], programId, language, key)
  }

  lemma {:induction false} LeastIsAllowed(entries: seq<Expected>, programId: string, language: Language, key: string)
    requires RequiredSatisfiable(entries, programId, language) && ValidKey(key)
    ensures Allowed(entries, programId, language, Least(entries, programId, language, key))
  {
    if entries != [] {
      LeastIsAllowed(entries[1..], programId, language, key);
      var rest := Least(entries[1..], programId, language, key);
      if entries[0].optional {
        assert [] + rest == rest;
      } else {
        assert ([Sample(entries[0], programId, language, key)] + rest)[1..] == rest;
      }
    }
  }

  lemma {:induction false} LeastIsLeast(entries: seq<Expected>, programId: string, language: Language, key: string,
                                        accounts: seq<Account>)
    requires Allowed(entries, programId, language, accounts)
    ensures |accounts| >= |Least(entries, programId, language, key)|
  {
    if entries != [] {
      if entries[0].optional && Allowed(entries[1..], programId, language, accounts) {
        LeastIsLeast(entries[1..], programId, language, key, accounts);
      } else {
        LeastIsLeast(entries[1..], programId, language, key, accounts[1..]);
      }
    }
  }

  lemma {:induction false} LeastCountsRequired(entries: seq<Expected>, programId: string, language: Language,
                                               key: string, k: nat)
    requires k < |entries| && !entries[k].optional
    ensures |Least(entries, programId, language, key)| > |Least(entries[k + 1..], programId, language, key)|
  {
    if k > 0 {
      assert entries[1..][k..] == entries[k + 1..];
      LeastCountsRequired(entries[1..], programId, language, key, k - 1);
    }
  }

  /** An account for the later entry that the earlier one refuses, if there is one. */
  lemma Telling(e: Expected, later: Expected, programId: string, language: Language) returns (key: string)
    requires e.name == later.name && Satisfiable(later, programId, language)
    ensures ValidKey(key) && Suits(later, programId, language, Sample(later, programId, language, key))
    ensures Suits(e, programId, language, Sample(later, programId, language, key)) && later.optional ==>
            Interchangeable(e, later, programId, language)
  {
    var pin := PinOf(e, programId, language);
    key := OtherKey(if pin.Some? then pin.value else "");
  }

  /** If two entries compete and are not interchangeable, the pass refuses some allowed list. */
  lemma CompetitionLoses(entries: seq<Expected>, programId: string, language: Language, i: nat, j: nat)
    returns (accounts: seq<Account>)
    requires RequiredSatisfiable(entries, programId, language)
    requires i < j < |entries| && Competes(entries, programId, language, i, j)
    requires !Interchangeable(entries[i], entries[j], programId, language)
    ensures Allowed(entries, programId, language, accounts)
    ensures Match(entries, programId, language, accounts).Some?
  {
    var key := Telling(entries[i], entries[j], programId, language);
    var least := Least(entries[j + 1..], programId, language, key);
    var rest := [Sample(entries[j], programId, language, key)] + least;
    accounts := Full(entries[..i], programId, language, key) + rest;
    LeastIsAllowed(entries[j + 1..], programId, language, key);
    assert rest[1..] == least && entries[j..][1..] == entries[j + 1..];
    assert Allowed(entries[j..], programId, language, rest);
    var from := entries[i..];
    assert from[j - i..] == entries[j..];
    forall k | 0 <= k < j - i ensures from[k].optional {
      assert from[k] == entries[i + k];
    }
    RunDropped(from, programId, language, j - i, rest);
    PrefixAllowed(entries, programId, language, key, i, rest);
    if Match(entries, programId, language, accounts).None? {
      PrefixPasses(entries, programId, language, key, i, rest);
      assert from[1..][j - i..] == entries[j + 1..] && from[j - i] == entries[j];
      CompetitionRefuses(from, programId, language, key, j - i - 1);
    }
  }

  lemma CompetitionRefuses(entries: seq<Expected>, programId: string, language: Language, key: string, j: nat)
    requires j < |entries| - 1 && entries[0].name == entries[j + 1].name
    requires var a := Sample(entries[j + 1], programId, language, key);
             !Suits(entries[0], programId, language, a) || !entries[j + 1].optional
    ensures Match(entries, programId, language,
                  [Sample(entries[j + 1], programId, language, key)]
                  + Least(entries[1..][j + 1..], programId, language, key)).Some?
  {
    var a, tail := Sample(entries[j + 1], programId, language, key), entries[1..];
    var least := Least(tail[j + 1..], programId, language, key);
    if Match(entries, programId, language, [a] + least).None? {
      TakenByFirst(entries, programId, language, a, least);
      AcceptedIsAllowed(tail, programId, language, least);
      LeastIsLeast(tail, programId, language, key, least);
      assert tail[j] == entries[j + 1];
      LeastCountsRequired(tail, programId, language, key, j);
      assert false;
    }
  }

  lemma TakenByFirst(entries: seq<Expected>, programId: string, language: Language, a: Account, rest: seq<Account>)
    requires entries != [] && a.name == entries[0].name
    requires Match(entries, programId, language, [a] + rest).None?
    ensures Suits(entries[0], programId, language, a) && Match(entries[1..], programId, language, rest).None?
  {
    assert ([a] + rest)[1..] == rest;
  }

  lemma {:induction false} UnsatisfiableAllowsNothing(entries: seq<Expected>, programId: string, language: Language,
      k: nat, accounts: seq<Account>)
    requires k < |entries| && !entries[k].optional && !Satisfiable(entries[k], programId, language)
    ensures !Allowed(entries, programId, language, accounts)
  {
    if k > 0 {
      UnsatisfiableAllowsNothing(entries[1..], programId, language, k - 1, accounts);
      if accounts != [] {
        UnsatisfiableAllowsNothing(entries[1..], programId, language, k - 1, accounts[1..]);
      }
    }
  }

  /** The pass accepts exactly the lists with a choice of entries to drop. */
  ghost predicate MatchesExactly(s: Specification, language: Language) {
    forall accounts :: Match(s.accounts, s.programId, language, accounts).None? <==>
                       exists keep :: Allows(s, language, accounts, keep)
  }

  /** Exactly which specifications the greedy pass matches exactly: those where no optional
      entry competes with a later one it is not interchangeable with. (A specification whose
      required accounts cannot all exist accepts and allows nothing.) */
  lemma GreedyIsExactWhen(s: Specification, language: Language)
    ensures MatchesExactly(s, language) <==>
            Unambiguous(s.accounts, s.programId, language) || !RequiredSatisfiable(s.accounts, s.programId, language)
  {
    forall accounts
      ensures Match(s.accounts, s.programId, language, accounts).None? ==>
              exists keep :: Allows(s, language, accounts, keep)
    {
      if Match(s.accounts, s.programId, language, accounts).None? {
        AcceptedIsAllowed(s.accounts, s.programId, language, accounts);
        var keep := AllowedHasChoice(s.accounts, s.programId, language, accounts);
      }
    }
    if Unambiguous(s.accounts, s.programId, language) || !RequiredSatisfiable(s.accounts, s.programId, language) {
      forall accounts, keep | Allows(s, language, accounts, keep)
        ensures Match(s.accounts, s.programId, language, accounts).None?
      {
        ChoiceAccepted(s, language, accounts, keep);
      }
    } else {
      var i, j :| 0 <= i < j < |s.accounts| && Competes(s.accounts, s.programId, language, i, j)
        && !Interchangeable(s.accounts[i], s.accounts[j], s.programId, language);
      var accounts := CompetitionLoses(s.accounts, s.programId, language, i, j);
      var keep := AllowedHasChoice(s.accounts, s.programId, language, accounts);
    }
  }

  lemma ChoiceAccepted(s: Specification, language: Language, accounts: seq<Account>, keep: seq<bool>)
    requires Unambiguous(s.accounts, s.programId, language) || !RequiredSatisfiable(s.accounts, s.programId, language)
    requires Allows(s, language, accounts, keep)
    ensures Match(s.accounts, s.programId, language, accounts).None?
  {
    ChoiceIsAllowed(s.accounts, s.programId, language, accounts, keep);
    if Unambiguous(s.accounts, s.programId, language) {
      AllowedIsAccepted(s.accounts, s.programId, language, accounts);
    } else {
      var k :| 0 <= k < |s.accounts| && !s.accounts[k].optional && !Satisfiable(s.accounts[k], s.programId, language);
      UnsatisfiableAllowsNothing(s.accounts, s.programId, language, k, accounts);
    }
  }

  /** Distinct names, as generated specifications have, are enough. */
  lemma DistinctNamesAreExact(s: Specification, language: Language)
    requires forall i, j :: 0 <= i < j < |s.accounts| ==> s.accounts[i].name != s.accounts[j].name
    ensures MatchesExactly(s, language)
  {
    GreedyIsExactWhen(s, language);
  }

  /** A name used twice, first for an optional entry: the required account is missed. */
  lemma RepeatedNameIsMissed(programId: string, language: Language, name: string, key: string)
    requires ValidKey(key) && name != "program"
    ensures var s := Specification(programId,
                [Expected(name, false, false, true, None), Expected(name, false, false, false, None)]);
            var accounts := [Account(name, key, false, false)];
            && Allows(s, language, accounts, [false, true])
            && Match(s.accounts, programId, language, accounts) == Some(MissingRequiredAccount)
  {
    var e, r := Expected(name, false, false, true, None), Expected(name, false, false, false, None);
    var accounts := [Account(name, key, false, false)];
    assert [e, r][1..] == [r] && [r][1..] == [] && accounts[1..] == [];
    assert [false, true][1..] == [true] && [true][1..] == [];
    assert Kept([r], [true]) == [r];
    assert Kept([e, r], [false, true]) == [r];
  }

  // ----- the two languages -----

  predicate EmptyPin(e: Expected, programId: string) { PinOf(e, programId, Rust) == Some("") }

  predicate AllSatisfiable(entries: seq<Expected>, programId: string, language: Language) {
    forall i :: 0 <= i < |entries| ==> Satisfiable(entries[i], programId, language)
  }

  /** With an account for each of the entries before `i`, the pass arrives at entry `i`. */
  lemma {:induction false} PrefixMatches(entries: seq<Expected>, programId: string, language: Language, key: string,
                                         i: nat, rest: seq<Account>)
    requires i <= |entries| && AllSatisfiable(entries[..i], programId, language) && ValidKey(key)
    ensures Match(entries, programId, language, Full(entries[..i], programId, language, key) + rest)
            == Match(entries[i..], programId, language, rest)
  {
    if i == 0 {
      assert Full(entries[..0], programId, language, key) + rest == rest && entries[0..] == entries;
    } else {
      FullStarts(entries, programId, language, key, i, rest);
      var first, more := Sample(entries[0], programId, language, key),
        Full(entries[1..][..i - 1], programId, language, key) + rest;
      assert entries[..i][0] == entries[0];
      assert ([first] + more)[0] == first && ([first] + more)[1..] == more;
      assert entries[1..][..i - 1] == entries[..i][1..];
      PrefixMatches(entries[1..], programId, language, key, i - 1, rest);
      assert entries[1..][i - 1..] == entries[i..];
    }
  }

  lemma {:induction false} SamePinsSameMatch(entries: seq<Expected>, programId: string, accounts: seq<Account>)
    requires forall i :: 0 <= i < |entries| ==> !EmptyPin(entries[i], programId)
    ensures Match(entries, programId, Rust, accounts) == Match(entries, programId, TypeScript, accounts)
  {
    if entries != [] {
      assert !EmptyPin(entries[0], programId);
      SamePinsSameMatch(entries[1..], programId, accounts);
      if accounts != [] {
        SamePinsSameMatch(entries[1..], programId, accounts[1..]);
      }
    }
  }

  lemma {:induction false} SamePinsSameFull(entries: seq<Expected>, programId: string, key: string)
    requires forall i :: 0 <= i < |entries| ==> !EmptyPin(entries[i], programId)
    ensures Full(entries, programId, Rust, key) == Full(entries, programId, TypeScript, key)
  {
    if entries != [] {
      assert !EmptyPin(entries[0], programId);
      SamePinsSameFull(entries[1..], programId, key);
    }
  }

  lemma {:induction false} NothingLeft(entries: seq<Expected>, programId: string, language: Language)
    ensures Match(entries, programId, language, []) in {None, Some(MissingRequiredAccount)}
  {
    if entries != [] {
      NothingLeft(entries[1..], programId, language);
    }
  }

  lemma EmptyPinTells(s: Specification, k: nat) returns (accounts: seq<Account>)
    requires k < |s.accounts| && EmptyPin(s.accounts[k], s.programId)
    requires forall i :: 0 <= i < k ==> !EmptyPin(s.accounts[i], s.programId)
    requires forall i :: 0 <= i < k ==> Satisfiable(s.accounts[i], s.programId, Rust)
    ensures Match(s.accounts, s.programId, Rust, accounts) != Match(s.accounts, s.programId, TypeScript, accounts)
  {
    var key := OtherKey("");
    var last := [Sample(s.accounts[k], s.programId, TypeScript, key)];
    accounts := Full(s.accounts[..k], s.programId, Rust, key) + last;
    SamePinsSameFull(s.accounts[..k], s.programId, key);
    PrefixMatches(s.accounts, s.programId, Rust, key, k, last);
    PrefixMatches(s.accounts, s.programId, TypeScript, key, k, last);
    assert Match(s.accounts[k..], s.programId, Rust, last) == Some(FixedAddressMismatch);
    assert s.accounts[k..][1..] == s.accounts[k + 1..] && last[1..] == [];
    NothingLeft(s.accounts[k + 1..], s.programId, TypeScript);
  }

  /** The two languages decide every account list alike exactly when no entry is pinned to the
      empty string, which Rust can never match and TypeScript ignores. (Other pins are taken to
      be keys.) */
  lemma LanguagesAgreeWhen(s: Specification)
    requires forall i :: 0 <= i < |s.accounts| ==>
               EmptyPin(s.accounts[i], s.programId) || Satisfiable(s.accounts[i], s.programId, Rust)
    ensures (forall accounts ::
              Match(s.accounts, s.programId, Rust, accounts) == Match(s.accounts, s.programId, TypeScript, accounts))
            <==> forall i :: 0 <= i < |s.accounts| ==> !EmptyPin(s.accounts[i], s.programId)
  {
    if forall i :: 0 <= i < |s.accounts| ==> !EmptyPin(s.accounts[i], s.programId) {
      forall accounts
        ensures Match(s.accounts, s.programId, Rust, accounts) == Match(s.accounts, s.programId, TypeScript, accounts)
      {
        SamePinsSameMatch(s.accounts, s.programId, accounts);
      }
    } else {
      var k := FirstEmptyPin(s.accounts, s.programId);
      var accounts := EmptyPinTells(s, k);
    }
  }

  lemma {:induction false} FirstEmptyPin(entries: seq<Expected>, programId: string) returns (k: nat)
    requires exists i :: 0 <= i < |entries| && EmptyPin(entries[i], programId)
    ensures k < |entries| && EmptyPin(entries[k], programId)
    ensures forall i :: 0 <= i < k ==> !EmptyPin(entries[i], programId)
  {
    if EmptyPin(entries[0], programId) {
      k := 0;
    } else {
      assert exists i :: 0 <= i < |entries[1..]| && EmptyPin(entries[1..][i], programId) by {
        var i :| 0 <= i < |entries| && EmptyPin(entries[i], programId);
        assert entries[1..][i - 1] == entries[i];
      }
      var rest := FirstEmptyPin(entries[1..], programId);
      k := rest + 1;
    }
  }
}
