/** The accounting and admission tables of persistence.py, with SQLite's constraints and rollback. */
module DurableState {
  import opened Identity

  datatype IdentityRow = IdentityRow(authority: string, revoked: bool)
  datatype CapabilityRow = CapabilityRow(owner: string, revoked: bool)
  datatype Budget = Budget(account: string, limit: int, reserved: int)
  datatype Obligation = Obligation(id: string, budget: string, amount: int)
  datatype Entry = Entry(journal: string, line: nat, account: string, amount: int)
  datatype Contract = Contract(id: string, requester: string, executor: string, obligation: string, acceptance: string)

  /** Primary keys are map keys; the tables whose rows are added up keep insertion order. */
  datatype Tables = Tables(
    identities: map<string, IdentityRow>, capabilities: map<string, CapabilityRow>, accounts: map<string, string>,
    budgets: map<string, Budget>, obligations: seq<Obligation>, journals: set<string>, entries: seq<Entry>,
    contracts: map<string, Contract>)

  const EMPTY: Tables := Tables(map[], map[], map[], map[], [], {}, [], map[])

  /** OverflowError is what binding an int outside 64 bits raises. */
  datatype Failure = ValueError | PermissionError | IntegrityError | OverflowError
  datatype Outcome = Done | Failed(why: Failure)

  predicate Int64(n: int) { -0x8000_0000_0000_0000 <= n <= 0x7FFF_FFFF_FFFF_FFFF }

  // ---------------------------------------------------------------- journals

  type Posting = (string, int)

  function SumPostings(postings: seq<Posting>): int {
    if postings == [] then 0 else SumPostings(postings[..|postings| - 1]) + postings[|postings| - 1].1
  }

  /** Why inserting one journal line fails, if it does. */
  function LineFailure(t: Tables, posting: Posting): Option<Failure> {
    if !Int64(posting.1) then Some(OverflowError)
    else if posting.1 == 0 || posting.0 !in t.accounts then Some(IntegrityError) else None
  }

  /** The first line that fails decides. */
  function LinesFailure(t: Tables, postings: seq<Posting>): Option<Failure> {
    if postings == [] then None
    else
      var before := LinesFailure(t, postings[..|postings| - 1]);
      if before.Some? then before else LineFailure(t, postings[|postings| - 1])
  }

  /** Lines are numbered from 1. */
  function Lines(journal: string, postings: seq<Posting>): seq<Entry> {
    if postings == [] then []
    else
      var n := |postings|;
      Lines(journal, postings[..n - 1]) + [Entry(journal, n, postings[n - 1].0, postings[n - 1].1)]
  }

  function PostJournal(t: Tables, journal: string, postings: seq<Posting>): (Tables, Outcome) {
    if postings == [] || SumPostings(postings) != 0 then (t, Failed(ValueError))
    else if journal in t.journals then (t, Failed(IntegrityError))
    else match LinesFailure(t, postings)
      case Some(why) => (t, Failed(why))
      case None => (t.(journals := t.journals + {journal}, entries := t.entries + Lines(journal, postings)), Done)
  }

  // ---------------------------------------------------------------- budgets

  predicate ObligationIdFree(t: Tables, id: string) {
    forall i :: 0 <= i < |t.obligations| ==> t.obligations[i].id != id
  }

  /** reserved_minor + amount that overflows 64 bits becomes a real above every limit, so the sum
      may be read as an unbounded integer. */
  function ReserveBudget(t: Tables, budget: string, obligation: string, amount: int): (Tables, Outcome) {
    if amount <= 0 then (t, Failed(ValueError))
    else if !Int64(amount) then (t, Failed(OverflowError))
    else if budget !in t.budgets || t.budgets[budget].reserved + amount > t.budgets[budget].limit
      then (t, Failed(ValueError))
    else if !ObligationIdFree(t, obligation) then (t, Failed(IntegrityError))
    else
      var row := t.budgets[budget];
      (t.(budgets := t.budgets[budget := row.(reserved := row.reserved + amount)],
          obligations := t.obligations + [Obligation(obligation, budget, amount)]), Done)
  }

  // ---------------------------------------------------------------- agents and contracts

  const REQUIRED := {"permitted_actions", "permitted_strata", "financial_policy", "revocation_state"}

  function AdmitAgent(t: Tables, identity: string, authority: string, capability: string,
      manifest: map<string, string>): (Tables, Outcome) {
    if !(REQUIRED <= manifest.Keys) || manifest["revocation_state"] != "active" then (t, Failed(ValueError))
    else if identity in t.identities || capability in t.capabilities then (t, Failed(IntegrityError))
    else (t.(identities := t.identities[identity := IdentityRow(authority, false)],
             capabilities := t.capabilities[capability := CapabilityRow(identity, false)]), Done)
  }

  /** The rows of the join that COUNT counts. */
  function Matches(t: Tables, a: string, b: string): set<string> {
    set c | c in t.capabilities
      && t.capabilities[c].owner in {a, b} && t.capabilities[c].owner in t.identities
      && !t.identities[t.capabilities[c].owner].revoked && !t.capabilities[c].revoked
  }

  function CreateContract(t: Tables, c: Contract): (Tables, Outcome) {
    if |Matches(t, c.requester, c.executor)| != 2 then (t, Failed(PermissionError))
    else if c.id in t.contracts || c.requester !in t.identities || c.executor !in t.identities
      || ObligationIdFree(t, c.obligation)
    then (t, Failed(IntegrityError))
    else (t.(contracts := t.contracts[c.id := c]), Done)
  }

  // ---------------------------------------------------------------- rows the schema alone governs

  /** SQLiteState offers no operation for these; callers insert them under the schema's constraints. */
  function AddOwner(t: Tables, identity: string, authority: string): (Tables, Outcome) {
    if identity in t.identities then (t, Failed(IntegrityError))
    else (t.(identities := t.identities[identity := IdentityRow(authority, false)]), Done)
  }

  function OpenAccount(t: Tables, account: string, owner: string): (Tables, Outcome) {
    if account in t.accounts || owner !in t.identities then (t, Failed(IntegrityError))
    else (t.(accounts := t.accounts[account := owner]), Done)
  }

  function OpenBudget(t: Tables, budget: string, account: string, limit: int): (Tables, Outcome) {
    if !Int64(limit) then (t, Failed(OverflowError))
    else if budget in t.budgets || account !in t.accounts || limit < 0 then (t, Failed(IntegrityError))
    else (t.(budgets := t.budgets[budget := Budget(account, limit, 0)]), Done)
  }

  // ---------------------------------------------------------------- the mutable store

  lemma FirstFailureStays(t: Tables, postings: seq<Posting>, k: nat)
    requires k <= |postings| && LinesFailure(t, postings[..k]).Some?
    ensures LinesFailure(t, postings) == LinesFailure(t, postings[..k])
    decreases |postings| - k
  {
    if k < |postings| {
      assert postings[..k + 1][..k] == postings[..k];
      FirstFailureStays(t, postings, k + 1);
    } else {
      assert postings[..k] == postings;
    }
  }

  class SQLiteState {
    var tables: Tables

    constructor ()
      ensures tables == EMPTY
    {
      tables := EMPTY;
    }

    /** Inserts the journal, then line by line; a failing line rolls everything back. */
    method Post(journal: string, postings: seq<Posting>) returns (outcome: Outcome)
      modifies this
      ensures (tables, outcome) == PostJournal(old(tables), journal, postings)
    {
      if |postings| == 0 || SumPostings(postings) != 0 { return Failed(ValueError); }
      var begin := tables;
      if journal in tables.journals { return Failed(IntegrityError); }
      tables := tables.(journals := tables.journals + {journal});
      assert postings[..|postings|] == postings;
      for k := 0 to |postings|
        invariant LinesFailure(begin, postings[..k]).None?
        invariant tables == begin.(journals := begin.journals + {journal},
                                   entries := begin.entries + Lines(journal, postings[..k]))
      {
        assert postings[..k + 1][..k] == postings[..k];
        var why := LineFailure(tables, postings[k]);
        if why.Some? {
          FirstFailureStays(begin, postings, k + 1);
          tables := begin;
          return Failed(why.value);
        }
        tables := tables.(entries := tables.entries + [Entry(journal, k + 1, postings[k].0, postings[k].1)]);
      }
      return Done;
    }

    /** Raises the reservation first; a duplicate obligation id takes it back. */
    method Reserve(budget: string, obligation: string, amount: int) returns (outcome: Outcome)
      modifies this
      ensures (tables, outcome) == ReserveBudget(old(tables), budget, obligation, amount)
    {
      if amount <= 0 { return Failed(ValueError); }
      if !Int64(amount) { return Failed(OverflowError); }
      var begin := tables;
      if budget !in tables.budgets || tables.budgets[budget].reserved + amount > tables.budgets[budget].limit {
        return Failed(ValueError);
      }
      var row := tables.budgets[budget];
      tables := tables.(budgets := tables.budgets[budget := row.(reserved := row.reserved + amount)]);
      var free := ObligationIdFree(tables, obligation);
      if !free {
        tables := begin;
        return Failed(IntegrityError);
      }
      tables := tables.(obligations := tables.obligations + [Obligation(obligation, budget, amount)]);
      return Done;
    }

    /** Inserts the identity first; a taken capability id takes it back. */
    method Admit(identity: string, authority: string, capability: string, manifest: map<string, string>)
        returns (outcome: Outcome)
      modifies this
      ensures (tables, outcome) == AdmitAgent(old(tables), identity, authority, capability, manifest)
    {
      if !(REQUIRED <= manifest.Keys) || manifest["revocation_state"] != "active" { return Failed(ValueError); }
      var begin := tables;
      if identity in tables.identities { return Failed(IntegrityError); }
      tables := tables.(identities := tables.identities[identity := IdentityRow(authority, false)]);
      if capability in tables.capabilities {
        tables := begin;
        return Failed(IntegrityError);
      }
      tables := tables.(capabilities := tables.capabilities[capability := CapabilityRow(identity, false)]);
      return Done;
    }

    method Agree(c: Contract) returns (outcome: Outcome)
      modifies this
      ensures (tables, outcome) == CreateContract(old(tables), c)
    {
      var admitted := Matches(tables, c.requester, c.executor);
      if |admitted| != 2 { return Failed(PermissionError); }
      var unknown := ObligationIdFree(tables, c.obligation);
      if c.id in tables.contracts || c.requester !in tables.identities || c.executor !in tables.identities || unknown {
        return Failed(IntegrityError);
      }
      tables := tables.(contracts := tables.contracts[c.id := c]);
      return Done;
    }
  }

  // ---------------------------------------------------------------- runs

  datatype Op =
    | Post(journal: string, postings: seq<Posting>)
    | Reserve(budget: string, obligation: string, amount: int)
    | Admit(identity: string, authority: string, capability: string, manifest: map<string, string>)
    | Agree(contract: Contract)
    | Owner(identity: string, authority: string)
    | Account(account: string, owner: string)
    | NewBudget(budget: string, account: string, limit: int)

  function Attempt(t: Tables, op: Op): (Tables, Outcome) {
    match op
    case Post(journal, postings) => PostJournal(t, journal, postings)
    case Reserve(budget, obligation, amount) => ReserveBudget(t, budget, obligation, amount)
    case Admit(identity, authority, capability, manifest) => AdmitAgent(t, identity, authority, capability, manifest)
    case Agree(contract) => CreateContract(t, contract)
    case Owner(identity, authority) => AddOwner(t, identity, authority)
    case Account(account, owner) => OpenAccount(t, account, owner)
    case NewBudget(budget, account, limit) => OpenBudget(t, budget, account, limit)
  }

  function Run(ops: seq<Op>): Tables {
    if ops == [] then EMPTY else Attempt(Run(ops[..|ops| - 1]), ops[|ops| - 1]).0
  }

  lemma FailureChangesNothing(t: Tables, op: Op)
    ensures Attempt(t, op).1.Failed? ==> Attempt(t, op).0 == t
  {
  }

  // ---------------------------------------------------------------- conservation of money

  /** What the obligations of one budget add up to. */
  function Owed(obligations: seq<Obligation>, budget: string): int {
    if obligations == [] then 0
    else
      var last := obligations[|obligations| - 1];
      Owed(obligations[..|obligations| - 1], budget) + if last.budget == budget then last.amount else 0
  }

  predicate BudgetHolds(b: Budget, owed: int) { b.reserved == owed && 0 <= b.reserved <= b.limit }

  predicate BudgetsHold(budgets: map<string, Budget>, obligations: seq<Obligation>) {
    && (forall b :: b in budgets ==> BudgetHolds(budgets[b], Owed(obligations, b)))
    && (forall i :: 0 <= i < |obligations| ==> obligations[i].budget in budgets && obligations[i].amount > 0)
  }

  lemma {:induction false} NothingOwed(obligations: seq<Obligation>, budget: string)
    requires forall i :: 0 <= i < |obligations| ==> obligations[i].budget != budget
    ensures Owed(obligations, budget) == 0
  {
    if obligations != [] { NothingOwed(obligations[..|obligations| - 1], budget); }
  }

  lemma ReserveKeepsBudgets(t: Tables, budget: string, obligation: string, amount: int)
    requires BudgetsHold(t.budgets, t.obligations) && ReserveBudget(t, budget, obligation, amount).1.Done?
    ensures var u := ReserveBudget(t, budget, obligation, amount).0;
            BudgetsHold(u.budgets, u.obligations)
  {
    var u := ReserveBudget(t, budget, obligation, amount).0;
    assert u.obligations[..|t.obligations|] == t.obligations;
    forall b | b in u.budgets
      ensures BudgetHolds(u.budgets[b], Owed(u.obligations, b))
    {
      assert BudgetHolds(t.budgets[b], Owed(t.obligations, b));
    }
  }

  lemma OpenKeepsBudgets(t: Tables, budget: string, account: string, limit: int)
    requires BudgetsHold(t.budgets, t.obligations) && OpenBudget(t, budget, account, limit).1.Done?
    ensures BudgetsHold(OpenBudget(t, budget, account, limit).0.budgets, t.obligations)
  {
    NothingOwed(t.obligations, budget);
  }

  lemma BudgetsHoldAfter(t: Tables, op: Op)
    requires BudgetsHold(t.budgets, t.obligations)
    ensures var u := Attempt(t, op).0; BudgetsHold(u.budgets, u.obligations)
  {
    if op.Reserve? && Attempt(t, op).1.Done? {
      ReserveKeepsBudgets(t, op.budget, op.obligation, op.amount);
    } else if op.NewBudget? && Attempt(t, op).1.Done? {
      OpenKeepsBudgets(t, op.budget, op.account, op.limit);
    }
  }

  /** The amounts of a journal's lines, or of all lines when every journal is asked for. */
  function Total(entries: seq<Entry>, journals: set<string>): int {
    if entries == [] then 0
    else
      var last := entries[|entries| - 1];
      Total(entries[..|entries| - 1], journals) + if last.journal in journals then last.amount else 0
  }

  ghost predicate JournalsHold(t: Tables) {
    && (forall i :: 0 <= i < |t.entries| ==>
       t.entries[i].journal in t.journals && t.entries[i].account in t.accounts && t.entries[i].amount != 0)
    && forall selection: set<string> :: Total(t.entries, selection) == 0
  }

  lemma {:induction false} TotalConcat(a: seq<Entry>, b: seq<Entry>, journals: set<string>)
    ensures Total(a + b, journals) == Total(a, journals) + Total(b, journals)
  {
    if b == [] {
      assert a + b == a;
    } else {
      assert (a + b)[..|a + b| - 1] == a + b[..|b| - 1];
      TotalConcat(a, b[..|b| - 1], journals);
    }
  }

  lemma {:induction false} LinesTotal(journal: string, postings: seq<Posting>, journals: set<string>)
    ensures Total(Lines(journal, postings), journals) == if journal in journals then SumPostings(postings) else 0
  {
    if postings != [] {
      LinesTotal(journal, postings[..|postings| - 1], journals);
      assert Lines(journal, postings)[..|Lines(journal, postings)| - 1] == Lines(journal, postings[..|postings| - 1]);
    }
  }

  predicate LineHolds(t: Tables, e: Entry, journal: string) {
    e.journal == journal && e.account in t.accounts && e.amount != 0
  }

  lemma {:induction false} LinesHold(t: Tables, journal: string, postings: seq<Posting>)
    requires LinesFailure(t, postings).None?
    ensures forall i :: 0 <= i < |Lines(journal, postings)| ==> LineHolds(t, Lines(journal, postings)[i], journal)
  {
    if postings != [] { LinesHold(t, journal, postings[..|postings| - 1]); }
  }

  /** One line for each posting, in order, numbered from 1. */
  lemma {:induction false} LinesAreThePostings(journal: string, postings: seq<Posting>)
    ensures |Lines(journal, postings)| == |postings|
    ensures forall i :: 0 <= i < |postings| ==>
            Lines(journal, postings)[i] == Entry(journal, i + 1, postings[i].0, postings[i].1)
  {
    if postings != [] { LinesAreThePostings(journal, postings[..|postings| - 1]); }
  }

  lemma JournalsHoldAfter(t: Tables, op: Op)
    requires JournalsHold(t)
    ensures JournalsHold(Attempt(t, op).0)
  {
    if op.Post? && Attempt(t, op).1.Done? {
      var u := Attempt(t, op).0;
      LinesHold(t, op.journal, op.postings);
      forall selection: set<string>
        ensures Total(u.entries, selection) == 0
      {
        TotalConcat(t.entries, Lines(op.journal, op.postings), selection);
        LinesTotal(op.journal, op.postings, selection);
      }
    }
  }

  // ---------------------------------------------------------------- agents

  predicate Owns(t: Tables, identity: string, capability: string) {
    capability in t.capabilities && t.capabilities[capability].owner == identity
  }

  /** An identity that admit_agent let in. */
  predicate Admitted(t: Tables, identity: string) {
    identity in t.identities && exists c :: c in t.capabilities && Owns(t, identity, c)
  }

  predicate CapabilitiesHold(t: Tables) {
    && (forall c :: c in t.capabilities ==> t.capabilities[c].owner in t.identities && !t.capabilities[c].revoked)
    && (forall i :: i in t.identities ==> !t.identities[i].revoked)
    && (forall c, d ::
          c in t.capabilities && d in t.capabilities && t.capabilities[c].owner == t.capabilities[d].owner ==> c == d)
  }

  predicate ContractHolds(t: Tables, c: Contract) {
    c.requester != c.executor && Admitted(t, c.requester) && Admitted(t, c.executor)
      && !ObligationIdFree(t, c.obligation)
  }

  predicate ContractsHold(t: Tables) { forall k :: k in t.contracts ==> ContractHolds(t, t.contracts[k]) }

  lemma CapabilitiesHoldAfter(t: Tables, op: Op)
    requires CapabilitiesHold(t)
    ensures CapabilitiesHold(Attempt(t, op).0)
  {
  }

  lemma AtMostOne(s: set<string>)
    requires forall x, y :: x in s && y in s ==> x == y
    ensures |s| <= 1
  {
    if x :| x in s { assert s == {x}; }
  }

  /** The count of the join is two exactly for two different admitted agents. */
  lemma CountIsTwoForTwoAgents(t: Tables, a: string, b: string)
    requires CapabilitiesHold(t)
    ensures |Matches(t, a, b)| == 2 <==> a != b && Admitted(t, a) && Admitted(t, b)
  {
    var m := Matches(t, a, b);
    if a != b && Admitted(t, a) && Admitted(t, b) {
      var c :| c in t.capabilities && Owns(t, a, c);
      var d :| d in t.capabilities && Owns(t, b, d);
      assert m == {c, d};
    } else {
      assert forall c :: c in m ==> Owns(t, a, c) || Owns(t, b, c);
      AtMostOne(m);
    }
  }

  lemma AgentsAndObligationsStay(t: Tables, op: Op, identity: string, obligation: string)
    ensures Admitted(t, identity) ==> Admitted(Attempt(t, op).0, identity)
    ensures !ObligationIdFree(t, obligation) ==> !ObligationIdFree(Attempt(t, op).0, obligation)
  {
    var u := Attempt(t, op).0;
    if Admitted(t, identity) {
      var c :| c in t.capabilities && Owns(t, identity, c);
      assert Owns(u, identity, c);
    }
    if i :| 0 <= i < |t.obligations| && t.obligations[i].id == obligation {
      assert u.obligations[i].id == obligation;
    }
  }

  lemma ContractStays(t: Tables, op: Op, c: Contract)
    requires ContractHolds(t, c)
    ensures ContractHolds(Attempt(t, op).0, c)
  {
    AgentsAndObligationsStay(t, op, c.requester, c.obligation);
    AgentsAndObligationsStay(t, op, c.executor, c.obligation);
  }

  lemma NewContractHolds(t: Tables, c: Contract)
    requires CapabilitiesHold(t) && CreateContract(t, c).1.Done?
    ensures ContractHolds(t, c)
  {
    CountIsTwoForTwoAgents(t, c.requester, c.executor);
  }

  lemma ContractsComeFromAgree(t: Tables, op: Op, k: string)
    requires k in Attempt(t, op).0.contracts
    ensures var c := Attempt(t, op).0.contracts[k];
            (k in t.contracts && t.contracts[k] == c) || (op == Agree(c) && CreateContract(t, c).1.Done?)
  {
  }

  lemma ContractsHoldAfter(t: Tables, op: Op)
    requires CapabilitiesHold(t) && ContractsHold(t)
    ensures ContractsHold(Attempt(t, op).0)
  {
    var contracts := Attempt(t, op).0.contracts;
    forall k | k in contracts
      ensures ContractHolds(Attempt(t, op).0, contracts[k])
    {
      ContractsComeFromAgree(t, op, k);
      if op == Agree(contracts[k]) && CreateContract(t, contracts[k]).1.Done? { NewContractHolds(t, contracts[k]); }
      ContractStays(t, op, contracts[k]);
    }
  }

  lemma {:induction false} InvariantsHold(ops: seq<Op>)
    ensures BudgetsHold(Run(ops).budgets, Run(ops).obligations) && JournalsHold(Run(ops)) && CapabilitiesHold(Run(ops))
            && ContractsHold(Run(ops))
  {
    if ops != [] {
      var t, op := Run(ops[..|ops| - 1]), ops[|ops| - 1];
      InvariantsHold(ops[..|ops| - 1]);
      BudgetsHoldAfter(t, op);
      JournalsHoldAfter(t, op);
      CapabilitiesHoldAfter(t, op);
      ContractsHoldAfter(t, op);
    }
  }

  // ---------------------------------------------------------------- main results

  /** In every run each budget's reserved amount is exactly what its obligations add up to, and
      stays between zero and the limit. */
  lemma ReservedEqualsObligations(ops: seq<Op>, budget: string)
    requires budget in Run(ops).budgets
    ensures var b := Run(ops).budgets[budget];
            b.reserved == Owed(Run(ops).obligations, budget) && 0 <= b.reserved <= b.limit
  {
    InvariantsHold(ops);
  }

  /** In every run the lines of each journal, of any selection of journals and of all together sum
      to zero. */
  lemma JournalsBalance(ops: seq<Op>, selection: set<string>)
    ensures Total(Run(ops).entries, selection) == 0 && Total(Run(ops).entries, Run(ops).journals) == 0
  {
    InvariantsHold(ops);
  }

  /** After every run a contract is created exactly between two different admitted agents, over a
      known obligation and under a new id; so every contract stands between two such agents. */
  lemma ContractsJoinTwoAgents(ops: seq<Op>, c: Contract)
    ensures CreateContract(Run(ops), c).1 == Done <==>
            && c.requester != c.executor && Admitted(Run(ops), c.requester) && Admitted(Run(ops), c.executor)
            && c.id !in Run(ops).contracts && !ObligationIdFree(Run(ops), c.obligation)
    ensures c.id in Run(ops).contracts && Run(ops).contracts[c.id] == c ==>
              c.requester != c.executor && Admitted(Run(ops), c.requester) && Admitted(Run(ops), c.executor)
  {
    InvariantsHold(ops);
    CountIsTwoForTwoAgents(Run(ops), c.requester, c.executor);
  }

  /** No identity ever owns two capabilities. */
  lemma OneCapabilityEach(ops: seq<Op>, identity: string, c: string, d: string)
    requires Owns(Run(ops), identity, c) && Owns(Run(ops), identity, d)
    ensures c == d && identity in Run(ops).identities
  {
    InvariantsHold(ops);
  }
}
