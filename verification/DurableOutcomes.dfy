/** When each operation on the durable tables succeeds after a run, what it then adds, and how it fails
    otherwise. */
module DurableOutcomes {
  import opened Identity
  import opened DurableState

  const LARGEST: int := 9223372036854775807

  ghost predicate Fits(n: int) { -LARGEST - 1 <= n <= LARGEST }

  /** What an operation needs of the tables and of its own arguments. Room in a budget is counted against
      what its obligations add up to. */
  ghost predicate Lawful(t: Tables, op: Op) {
    match op
    case Post(journal, postings) =>
      && postings != [] && SumPostings(postings) == 0 && journal !in t.journals
      && forall i :: 0 <= i < |postings| ==>
           postings[i].1 != 0 && Fits(postings[i].1) && postings[i].0 in t.accounts
    case Reserve(budget, obligation, amount) =>
      && 0 < amount <= LARGEST && budget in t.budgets
      && Owed(t.obligations, budget) + amount <= t.budgets[budget].limit
      && forall i :: 0 <= i < |t.obligations| ==> t.obligations[i].id != obligation
    case Admit(identity, authority, capability, manifest) =>
      && "permitted_actions" in manifest && "permitted_strata" in manifest && "financial_policy" in manifest
      && "revocation_state" in manifest && manifest["revocation_state"] == "active"
      && identity !in t.identities && capability !in t.capabilities
    case Agree(c) =>
      && c.requester != c.executor && IsAgent(t, c.requester) && IsAgent(t, c.executor)
      && c.id !in t.contracts && exists i :: 0 <= i < |t.obligations| && t.obligations[i].id == c.obligation
    case Owner(identity, authority) => identity !in t.identities
    case Account(account, owner) => account !in t.accounts && owner in t.identities
    case NewBudget(budget, account, limit) =>
      budget !in t.budgets && account in t.accounts && 0 <= limit <= LARGEST
  }

  ghost predicate IsAgent(t: Tables, identity: string) {
    identity in t.identities && exists c :: c in t.capabilities && t.capabilities[c].owner == identity
  }

  lemma AgentsAreAdmitted(t: Tables, identity: string)
    ensures Admitted(t, identity) <==> IsAgent(t, identity)
  {
    if Admitted(t, identity) {
      var c :| c in t.capabilities && Owns(t, identity, c);
    }
    if IsAgent(t, identity) {
      var c :| c in t.capabilities && t.capabilities[c].owner == identity;
      assert Owns(t, identity, c);
    }
  }

  lemma {:induction false} LinesFailExactlyWhen(t: Tables, postings: seq<Posting>)
    ensures LinesFailure(t, postings).None? <==>
              forall i :: 0 <= i < |postings| ==>
                postings[i].1 != 0 && Fits(postings[i].1) && postings[i].0 in t.accounts
  {
    if postings != [] {
      var n := |postings| - 1;
      LinesFailExactlyWhen(t, postings[..n]);
      assert forall i :: 0 <= i < n ==> postings[..n][i] == postings[i];
      assert LineFailure(t, postings[n]).None? <==>
             postings[n].1 != 0 && Fits(postings[n].1) && postings[n].0 in t.accounts;
    }
  }

  /** After every run an operation is done exactly when it is lawful, and otherwise changes nothing. */
  lemma DoneExactlyWhenLawful(ops: seq<Op>, op: Op)
    ensures Attempt(Run(ops), op).1 == Done <==> Lawful(Run(ops), op)
    ensures !Lawful(Run(ops), op) ==> Attempt(Run(ops), op).0 == Run(ops)
  {
    InvariantsHold(ops);
    var t := Run(ops);
    match op
    case Post(journal, postings) => LinesFailExactlyWhen(t, postings);
    case Reserve(budget, obligation, amount) =>
      if budget in t.budgets { assert BudgetHolds(t.budgets[budget], Owed(t.obligations, budget)); }
    case Agree(c) =>
      ContractsJoinTwoAgents(ops, c);
      AgentsAreAdmitted(t, c.requester);
      AgentsAreAdmitted(t, c.executor);
    case _ =>
  }

  /** The lines of a journal: one for each posting, in order and numbered from 1. */
  ghost function Numbered(journal: string, postings: seq<Posting>): (lines: seq<Entry>)
    ensures |lines| == |postings|
  {
    seq(|postings|, i requires 0 <= i < |postings| => Entry(journal, i + 1, postings[i].0, postings[i].1))
  }

  /** What a lawful operation adds; it takes nothing away. */
  ghost function With(t: Tables, op: Op): Tables
    requires Lawful(t, op)
  {
    match op
    case Post(journal, postings) =>
      t.(journals := t.journals + {journal}, entries := t.entries + Numbered(journal, postings))
    case Reserve(budget, obligation, amount) =>
      var b := t.budgets[budget];
      t.(budgets := t.budgets[budget := Budget(b.account, b.limit, Owed(t.obligations, budget) + amount)],
         obligations := t.obligations + [Obligation(obligation, budget, amount)])
    case Admit(identity, authority, capability, manifest) =>
      t.(identities := t.identities[identity := IdentityRow(authority, false)],
         capabilities := t.capabilities[capability := CapabilityRow(identity, false)])
    case Agree(c) => t.(contracts := t.contracts[c.id := c])
    case Owner(identity, authority) => t.(identities := t.identities[identity := IdentityRow(authority, false)])
    case Account(account, owner) => t.(accounts := t.accounts[account := owner])
    case NewBudget(budget, account, limit) => t.(budgets := t.budgets[budget := Budget(account, limit, 0)])
  }

  lemma PostAdds(t: Tables, op: Op)
    requires op.Post? && Lawful(t, op) && Attempt(t, op).1 == Done
    ensures Attempt(t, op).0 == With(t, op)
  {
    LinesAreThePostings(op.journal, op.postings);
    assert Lines(op.journal, op.postings) == Numbered(op.journal, op.postings);
  }

  lemma OthersAdd(t: Tables, op: Op)
    requires !op.Post? && Lawful(t, op) && Attempt(t, op).1 == Done && BudgetsHold(t.budgets, t.obligations)
    ensures Attempt(t, op).0 == With(t, op)
  {
    if op.Reserve? { assert BudgetHolds(t.budgets[op.budget], Owed(t.obligations, op.budget)); }
  }

  /** And what it adds is exactly this. */
  lemma LawfulOperationsAdd(ops: seq<Op>, op: Op)
    requires Lawful(Run(ops), op)
    ensures Attempt(Run(ops), op).0 == With(Run(ops), op)
  {
    InvariantsHold(ops);
    DoneExactlyWhenLawful(ops, op);
    if op.Post? { PostAdds(Run(ops), op); } else { OthersAdd(Run(ops), op); }
  }

  /** Every account has an owner, every budget an account and a limit that is not negative, and every
      journal line an account and its own journal. */
  ghost predicate RowsReferToRows(t: Tables) {
    && (forall a :: a in t.accounts ==> t.accounts[a] in t.identities)
    && (forall b :: b in t.budgets ==> t.budgets[b].account in t.accounts && 0 <= t.budgets[b].limit <= LARGEST)
    && (forall i :: 0 <= i < |t.entries| ==> t.entries[i].journal in t.journals && t.entries[i].account in t.accounts)
    && (forall i :: 0 <= i < |t.obligations| ==> t.obligations[i].budget in t.budgets)
    && (forall i, j :: 0 <= i < j < |t.obligations| ==> t.obligations[i].id != t.obligations[j].id)
    && (forall c :: c in t.capabilities ==> t.capabilities[c].owner in t.identities)
    && (forall k :: k in t.contracts ==>
          t.contracts[k].requester in t.identities && t.contracts[k].executor in t.identities && t.contracts[k].id == k)
  }

  lemma LawfulKeepsReferences(t: Tables, op: Op)
    requires RowsReferToRows(t) && Lawful(t, op)
    ensures RowsReferToRows(With(t, op))
  {
  }

  /** In every run each row refers to rows that are there, and obligation ids are unique. */
  lemma {:induction false} ReferencesHold(ops: seq<Op>)
    ensures RowsReferToRows(Run(ops))
  {
    if ops != [] {
      var n := |ops| - 1;
      ReferencesHold(ops[..n]);
      DoneExactlyWhenLawful(ops[..n], ops[n]);
      if Lawful(Run(ops[..n]), ops[n]) {
        LawfulOperationsAdd(ops[..n], ops[n]);
        LawfulKeepsReferences(Run(ops[..n]), ops[n]);
      }
    }
  }

  /** How the operations that the store offers refuse: a ValueError before the database is asked, for an
      empty or unbalanced journal, an amount that is not positive, a budget without room, or a manifest
      that does not conform; a PermissionError when the two agents are not both admitted. */
  lemma RefusedForCause(ops: seq<Op>, op: Op)
    ensures op.Post? ==>
              (Attempt(Run(ops), op).1 == Failed(ValueError) <==> op.postings == [] || SumPostings(op.postings) != 0)
    ensures op.Reserve? ==>
              (Attempt(Run(ops), op).1 == Failed(ValueError) <==>
                 op.amount <= 0
                 || (op.amount <= LARGEST
                     && (op.budget !in Run(ops).budgets
                         || Owed(Run(ops).obligations, op.budget) + op.amount > Run(ops).budgets[op.budget].limit)))
    ensures op.Admit? ==>
              (Attempt(Run(ops), op).1 == Failed(ValueError) <==>
                 !("permitted_actions" in op.manifest && "permitted_strata" in op.manifest
                   && "financial_policy" in op.manifest && "revocation_state" in op.manifest
                   && op.manifest["revocation_state"] == "active"))
    ensures op.Agree? ==>
              (Attempt(Run(ops), op).1 == Failed(PermissionError) <==>
                 !(op.contract.requester != op.contract.executor && IsAgent(Run(ops), op.contract.requester)
                   && IsAgent(Run(ops), op.contract.executor)))
  {
    InvariantsHold(ops);
    var t := Run(ops);
    match op
    case Post(journal, postings) => LinesNeverRaiseValueErrors(t, postings);
    case Reserve(budget, _, _) =>
      if budget in t.budgets { assert BudgetHolds(t.budgets[budget], Owed(t.obligations, budget)); }
    case Agree(c) =>
      CountIsTwoForTwoAgents(t, c.requester, c.executor);
      AgentsAreAdmitted(t, c.requester);
      AgentsAreAdmitted(t, c.executor);
    case _ =>
  }

  lemma {:induction false} LinesNeverRaiseValueErrors(t: Tables, postings: seq<Posting>)
    ensures LinesFailure(t, postings) != Some(ValueError)
  {
    if postings != [] { LinesNeverRaiseValueErrors(t, postings[..|postings| - 1]); }
  }

  ghost predicate InForce(t: Tables, identity: string) {
    && identity in t.identities && !t.identities[identity].revoked
    && exists c :: c in t.capabilities && t.capabilities[c].owner == identity && !t.capabilities[c].revoked
  }

  /** On any tables in which no identity owns two capabilities, even ones where agents were revoked: a
      contract is created only between two different agents whose identity and capability are in force. */
  lemma RevokedAgentsAgreeToNothing(t: Tables, c: Contract)
    requires forall x, y ::
               x in t.capabilities && y in t.capabilities && t.capabilities[x].owner == t.capabilities[y].owner ==>
                 x == y
    requires CreateContract(t, c).1 == Done
    ensures c.requester != c.executor && InForce(t, c.requester) && InForce(t, c.executor)
  {
    var m := Matches(t, c.requester, c.executor);
    var x :| x in m;
    assert |m - {x}| == 1;
    var y :| y in m - {x};
    assert t.capabilities[x].owner != t.capabilities[y].owner;
  }
}
