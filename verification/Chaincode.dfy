/** The example chaincode with its cross-chain contracts
    (fabric/chaincode/chaincode_example02/go). */
module Chaincode {
  import opened Options
  import opened Totals
  import opened Words

  /** Parsing of numbers and splitting at spaces, as parameters. */
  datatype Lib = Lib(atoi: string -> Option<int64>, split: string -> seq<string>)

  datatype CStatus = Init | Pending | Executed | Finished | Completed | OutOnceCompleted

  datatype ContractCore = ContractCore(address: string, amount: string, description: string, owner: string,
                                       toCallFunc: string, args: seq<string>, creator: string)

  /** The stored document of a contract; it always carries all the fields. */
  datatype Doc = Doc(status: CStatus, contractId: string, receipt: string, core: ContractCore)

  /** What the ledger holds under a key: a number, or a contract document. */
  datatype Cell = Amount(n: int64) | Record(doc: Doc)

  type Ledger = map<string, Cell>

  datatype IContract =
    | PrecommitContract(status: CStatus, contractId: string, receipt: string, core: ContractCore)
    | CommitContract(status: CStatus, contractId: string)

  /** The status in the document decides which kind of contract is rebuilt, so a
      precommitted contract that was finished comes back as a commit. */
  function RebuildIContract(doc: Doc): IContract {
    match doc.status
    case Init => PrecommitContract(doc.status, doc.contractId, doc.receipt, doc.core)
    case Pending => PrecommitContract(doc.status, doc.contractId, doc.receipt, doc.core)
    case Executed => PrecommitContract(doc.status, doc.contractId, doc.receipt, doc.core)
    case Completed => PrecommitContract(doc.status, doc.contractId, doc.receipt, doc.core)
    case Finished => CommitContract(doc.status, doc.contractId)
    case OutOnceCompleted => CommitContract(doc.status, doc.contractId)
  }

  // ---------- Transactions as functions on the ledger ----------

  /** A document does not parse as a number and reads as zero. */
  function AmountOf(cell: Cell): int64 {
    if cell.Amount? then cell.n else 0
  }

  /** doInvoke: the writes of a transfer, or an error. Both balances are read
      before either is written. */
  function DoInvoke(lib: Lib, ledger: Ledger, args: seq<string>): Option<Ledger> {
    if |args| != 3 || args[0] !in ledger || args[1] !in ledger then None
    else match lib.atoi(args[2])
      case None => None
      case Some(x) =>
        Some(map[args[0] := Amount(Wrap(AmountOf(ledger[args[0]]) - x))]
             + map[args[1] := Amount(Wrap(AmountOf(ledger[args[1]]) + x))])
  }

  /** An index past the end of the arguments makes the chaincode fail. */
  function Precommit(lib: Lib, id: string, creator: string, args: seq<string>): Option<Ledger> {
    if |args| < 5 || lib.split(args[4]) == [] then None
    else
      var callArgs := lib.split(args[4]);
      Some(map[id := Record(Doc(Init, id, "",
                                ContractCore(args[0], args[1], args[2], callArgs[0], args[3], callArgs, creator)))])
  }

  function DoCommit(lib: Lib, ledger: Ledger, core: ContractCore): Option<Ledger> {
    if core.toCallFunc == "invoke" then DoInvoke(lib, ledger, core.args) else None
  }

  function RegularCommit(lib: Lib, ledger: Ledger, args: seq<string>): Option<Ledger> {
    if |args| < 2 || args[0] !in ledger || ledger[args[0]].Amount? then None
    else
      var doc := ledger[args[0]].doc;
      match RebuildIContract(doc)
      case CommitContract(status, _) => if status == Finished then Some(map[]) else None
      case PrecommitContract(_, id, _, core) =>
        match DoCommit(lib, ledger, core)
        case None => None
        case Some(writes) => Some(writes + map[args[0] := Record(Doc(Finished, id, args[1], core))])
  }

  function OutchainCommit(lib: Lib, ledger: Ledger, args: seq<string>): Option<Ledger> {
    if |args| < 2 || args[1] != "invoke" then None else DoInvoke(lib, ledger, args[2..])
  }

  function Commit(lib: Lib, ledger: Ledger, args: seq<string>): Option<Ledger> {
    if args == [] then None
    else if args[0] == "outchain" then OutchainCommit(lib, ledger, args[1..])
    else RegularCommit(lib, ledger, args)
  }

  datatype Tx =
    | InvokeTx(args: seq<string>)
    | DeleteTx(args: seq<string>)
    | PrecommitTx(id: string, creator: string, args: seq<string>)
    | CommitTx(args: seq<string>)

  /** The ledger after a transaction; one that fails writes nothing. invoke hides
      the error of its transfer. */
  function Execute(lib: Lib, ledger: Ledger, tx: Tx): Ledger {
    match tx
    case InvokeTx(args) => Written(ledger, DoInvoke(lib, ledger, args))
    case DeleteTx(args) => if |args| == 1 then ledger - {args[0]} else ledger
    case PrecommitTx(id, creator, args) => Written(ledger, Precommit(lib, id, creator, args))
    case CommitTx(args) => Written(ledger, Commit(lib, ledger, args))
  }

  function Written(ledger: Ledger, writes: Option<Ledger>): Ledger {
    if writes.Some? then ledger + writes.value else ledger
  }

  // ---------- At most one application ----------

  /** A precommit as it was asked for, and a commit that executed its call. */
  datatype Request = Request(creator: string, args: seq<string>)

  datatype Application = Application(call: seq<string>, receipt: string)

  /** What an observer notes: the request of each precommit, and the calls that
      commits of it have executed. */
  datatype History = History(recorded: map<string, Request>, applied: map<string, seq<Application>>)

  const NO_HISTORY := History(map[], map[])

  function Applied(h: History, id: string): seq<Application> {
    if id in h.applied then h.applied[id] else []
  }

  /** A regular commit that executes the transfer of a precommitted contract. */
  predicate Applies(lib: Lib, ledger: Ledger, tx: Tx) {
    && tx.CommitTx? && tx.args != [] && tx.args[0] != "outchain"
    && RegularCommit(lib, ledger, tx.args).Some?
    && RebuildIContract(ledger[tx.args[0]].doc).PrecommitContract?
  }

  function Note(lib: Lib, ledger: Ledger, h: History, tx: Tx): History {
    if tx.PrecommitTx? && Precommit(lib, tx.id, tx.creator, tx.args).Some? then
      h.(recorded := h.recorded[tx.id := Request(tx.creator, tx.args)])
    else if Applies(lib, ledger, tx) then
      h.(applied := h.applied[tx.args[0] := Applied(h, tx.args[0])
                                               + [Application(ledger[tx.args[0]].doc.core.args, tx.args[1])]])
    else h
  }

  /** A contract identifier hashes the identifier of its transaction, so it is new. */
  predicate Fresh(h: History, tx: Tx) {
    tx.PrecommitTx? ==> tx.id !in h.recorded
  }

  function After(lib: Lib, ledger: Ledger, txs: seq<Tx>): (Ledger, History) {
    if txs == [] then (ledger, NO_HISTORY)
    else
      var (l, h) := After(lib, ledger, txs[..|txs| - 1]);
      (Execute(lib, l, txs[|txs| - 1]), Note(lib, l, h, txs[|txs| - 1]))
  }

  predicate FreshRun(lib: Lib, ledger: Ledger, txs: seq<Tx>) {
    txs == [] ||
    (FreshRun(lib, ledger, txs[..|txs| - 1]) && Fresh(After(lib, ledger, txs[..|txs| - 1]).1, txs[|txs| - 1]))
  }

  /** The contract shows what was asked for. */
  predicate Shows(lib: Lib, core: ContractCore, r: Request) {
    && |r.args| >= 5 && core.creator == r.creator
    && core.address == r.args[0] && core.amount == r.args[1] && core.description == r.args[2]
    && core.toCallFunc == r.args[3] && core.args == lib.split(r.args[4]) && core.args != [] && core.owner == core.args[0]
  }

  /** A document is initial and not yet applied, or finished and applied once, and
      then carries the receipt of that commit; what was applied is what was recorded. */
  ghost predicate ContractOk(lib: Lib, ledger: Ledger, h: History, id: string) {
    var applied := Applied(h, id);
    && |applied| <= 1
    && (applied != [] ==>
          id in h.recorded && |h.recorded[id].args| >= 5 && applied[0].call == lib.split(h.recorded[id].args[4]))
    && (id in ledger && ledger[id].Record? ==>
          var doc := ledger[id].doc;
          && id in h.recorded && Shows(lib, doc.core, h.recorded[id]) && doc.contractId == id
          && (doc.status == if applied == [] then Init else Finished)
          && (doc.receipt == if applied == [] then "" else applied[0].receipt))
  }

  ghost predicate Inv(lib: Lib, ledger: Ledger, h: History) {
    forall id :: ContractOk(lib, ledger, h, id)
  }

  lemma TransferWritesAmounts(lib: Lib, ledger: Ledger, args: seq<string>)
    requires DoInvoke(lib, ledger, args).Some?
    ensures forall id :: id in DoInvoke(lib, ledger, args).value ==> DoInvoke(lib, ledger, args).value[id].Amount?
  {
  }

  lemma StepKeepsInv(lib: Lib, ledger: Ledger, h: History, tx: Tx)
    requires Inv(lib, ledger, h) && Fresh(h, tx)
    ensures Inv(lib, Execute(lib, ledger, tx), Note(lib, ledger, h, tx))
  {
    forall id ensures ContractOk(lib, Execute(lib, ledger, tx), Note(lib, ledger, h, tx), id) {
      assert ContractOk(lib, ledger, h, id);
      StepKeepsContract(lib, ledger, h, tx, id);
    }
  }

  lemma StepKeepsContract(lib: Lib, ledger: Ledger, h: History, tx: Tx, id: string)
    requires ContractOk(lib, ledger, h, id) && Fresh(h, tx)
    ensures ContractOk(lib, Execute(lib, ledger, tx), Note(lib, ledger, h, tx), id)
  {
    if tx.CommitTx? {
      CommitKeepsContract(lib, ledger, h, tx, id);
    } else if tx.InvokeTx? && DoInvoke(lib, ledger, tx.args).Some? {
      TransferWritesAmounts(lib, ledger, tx.args);
      hide DoInvoke;
    }
  }

  lemma CommitKeepsContract(lib: Lib, ledger: Ledger, h: History, tx: Tx, id: string)
    requires ContractOk(lib, ledger, h, id) && tx.CommitTx?
    ensures ContractOk(lib, Execute(lib, ledger, tx), Note(lib, ledger, h, tx), id)
  {
    var args := tx.args;
    if args != [] && args[0] == "outchain" {
      if OutchainCommit(lib, ledger, args[1..]).Some? { TransferWritesAmounts(lib, ledger, args[1..][2..]); }
      hide DoInvoke;
    } else if Applies(lib, ledger, tx) {
      TransferWritesAmounts(lib, ledger, ledger[args[0]].doc.core.args);
      hide DoInvoke;
    }
  }

  lemma {:induction false} RunKeepsInv(lib: Lib, ledger: Ledger, txs: seq<Tx>)
    requires FreshRun(lib, ledger, txs) && forall id :: id in ledger ==> ledger[id].Amount?
    ensures Inv(lib, After(lib, ledger, txs).0, After(lib, ledger, txs).1)
  {
    hide Execute, Note, Fresh;
    if txs != [] {
      RunKeepsInv(lib, ledger, txs[..|txs| - 1]);
      var (l, h) := After(lib, ledger, txs[..|txs| - 1]);
      StepKeepsInv(lib, l, h, txs[|txs| - 1]);
    }
  }

  /** Over any run from a ledger of balances, whatever is invoked, deleted or
      committed and however often, the transfer of a precommitted contract is
      executed at most once, and with the arguments precommitted. */
  lemma AppliedAtMostOnce(lib: Lib, ledger: Ledger, txs: seq<Tx>, id: string)
    requires FreshRun(lib, ledger, txs) && forall key :: key in ledger ==> ledger[key].Amount?
    ensures var h := After(lib, ledger, txs).1;
            && |Applied(h, id)| <= 1
            && (Applied(h, id) != [] ==>
                  id in h.recorded && |h.recorded[id].args| >= 5
                  && Applied(h, id)[0].call == lib.split(h.recorded[id].args[4]))
  {
    RunKeepsInv(lib, ledger, txs);
    var (l, h) := After(lib, ledger, txs);
    assert ContractOk(lib, l, h, id);
  }

  /** Over any run the document of a contract shows what its precommit asked for, and
      that it is finished, with the receipt of the commit, exactly once it was applied. */
  lemma DocumentShowsRequest(lib: Lib, ledger: Ledger, txs: seq<Tx>, id: string)
    requires FreshRun(lib, ledger, txs) && forall key :: key in ledger ==> ledger[key].Amount?
    ensures var (l, h) := After(lib, ledger, txs);
            id in l && l[id].Record? ==>
              var doc, applied := l[id].doc, Applied(h, id);
              && id in h.recorded && Shows(lib, doc.core, h.recorded[id])
              && (doc.status == Finished <==> applied != []) && (applied == [] ==> doc.status == Init && doc.receipt == "")
              && (applied != [] ==> doc.receipt == applied[0].receipt)
  {
    RunKeepsInv(lib, ledger, txs);
    var (l, h) := After(lib, ledger, txs);
    assert ContractOk(lib, l, h, id);
  }

  /** A precommit under a new identifier stores the document it asks for exactly when
      it has five arguments and a call; nothing else changes. */
  lemma PrecommitStoresIff(lib: Lib, ledger: Ledger, id: string, creator: string, args: seq<string>)
    requires id !in ledger
    ensures var l := Execute(lib, ledger, PrecommitTx(id, creator, args));
            && (id in l <==> |args| >= 5 && lib.split(args[4]) != [])
            && (id in l ==> l[id].Record? && Shows(lib, l[id].doc.core, Request(creator, args)) && l[id].doc.status == Init)
            && l - {id} == ledger
  {
    assert ledger - {id} == ledger;
  }

  /** A second commit of a finished contract succeeds and writes nothing. */
  lemma CommitIsIdempotent(lib: Lib, ledger: Ledger, args: seq<string>, again: seq<string>)
    requires RegularCommit(lib, ledger, args).Some? && |again| >= 2 && again[0] == args[0]
    ensures var l := ledger + RegularCommit(lib, ledger, args).value;
            RegularCommit(lib, l, again) == Some(map[])
  {
  }

  // ---------- Transfers ----------

  /** A movement of money between two accounts, possibly the same. */
  datatype Movement = Movement(payer: string, payee: string, amount: int64)

  /** What a transfer with these arguments moves: nothing unless both accounts exist
      and the amount is a number. */
  function Asked(lib: Lib, ledger: Ledger, args: seq<string>): Option<Movement> {
    if |args| != 3 || args[0] !in ledger || args[1] !in ledger then None
    else match lib.atoi(args[2])
      case None => None
      case Some(x) => Some(Movement(args[0], args[1], x))
  }

  function Balance(ledger: Ledger, account: string): int64 {
    if account in ledger then AmountOf(ledger[account]) else 0
  }

  /** What a movement adds to an account. From an account to itself the amount is
      added only. */
  function Change(m: Option<Movement>, account: string): int {
    if m.None? then 0
    else if account == m.value.payee then m.value.amount
    else if account == m.value.payer then -(m.value.amount as int)
    else 0
  }

  /** The payer's balance has fallen by the amount and the payee's risen, in 64 bits;
      nothing else has changed but for the documents named. */
  ghost predicate HasMoved(before: Ledger, after: Ledger, m: Option<Movement>, documents: set<string>) {
    && before.Keys == after.Keys
    && forall account | account in before && account !in documents ::
         if m.Some? && (account == m.value.payer || account == m.value.payee)
         then after[account] == Amount(Wrap(Balance(before, account) + Change(m, account)))
         else after[account] == before[account]
  }

  lemma InvokeMoves(lib: Lib, ledger: Ledger, args: seq<string>)
    ensures DoInvoke(lib, ledger, args).Some? <==> Asked(lib, ledger, args).Some?
    ensures HasMoved(ledger, Written(ledger, DoInvoke(lib, ledger, args)), Asked(lib, ledger, args), {})
  {
  }

  /** The movement a transaction makes: the one it asks for itself, or for a commit
      noted as executing a contract the one recorded there. */
  function MovementOf(lib: Lib, ledger: Ledger, h: History, tx: Tx): Option<Movement> {
    match tx
    case InvokeTx(args) => Asked(lib, ledger, args)
    case DeleteTx(_) => None
    case PrecommitTx(_, _, _) => None
    case CommitTx(args) =>
      if args == [] then None
      else if args[0] == "outchain" then
        (if |args| >= 3 && args[2] == "invoke" then Asked(lib, ledger, args[3..]) else None)
      else
        var before, after := Applied(h, args[0]), Applied(Note(lib, ledger, h, tx), args[0]);
        if |after| > |before| then Asked(lib, ledger, after[|after| - 1].call) else None
  }

  /** An invocation, and a commit from outside, makes exactly the movement asked for. */
  lemma InvocationMoves(lib: Lib, ledger: Ledger, h: History, tx: Tx)
    requires tx.InvokeTx? || (tx.CommitTx? && tx.args != [] && tx.args[0] == "outchain")
    ensures HasMoved(ledger, Execute(lib, ledger, tx), MovementOf(lib, ledger, h, tx), {})
  {
    if tx.InvokeTx? {
      InvokeMoves(lib, ledger, tx.args);
    } else if |tx.args| >= 3 {
      assert tx.args[1..][2..] == tx.args[3..] && tx.args[1..][1] == tx.args[2];
      InvokeMoves(lib, ledger, tx.args[3..]);
    }
  }

  /** A commit noted as executing a contract moves exactly the recorded amount between
      the recorded accounts, and besides finishes the document; any other regular
      commit changes nothing. */
  lemma CommitMoves(lib: Lib, ledger: Ledger, h: History, tx: Tx)
    requires tx.CommitTx? && tx.args != [] && tx.args[0] != "outchain"
    ensures var m, l, id := MovementOf(lib, ledger, h, tx), Execute(lib, ledger, tx), tx.args[0];
            if Applies(lib, ledger, tx) then
              && m == Asked(lib, ledger, ledger[id].doc.core.args) && m.Some?
              && HasMoved(ledger, l, m, {id})
              && l[id] == Record(ledger[id].doc.(status := Finished, receipt := tx.args[1]))
            else l == ledger && m == None
  {
    if Applies(lib, ledger, tx) {
      AppliesWrites(lib, ledger, tx);
      AppliesIsNoted(lib, ledger, h, tx);
      hide Execute, Applies, MovementOf;
      ExecutedMoves(lib, ledger, tx.args[0], ledger[tx.args[0]].doc.core.args, Execute(lib, ledger, tx)[tx.args[0]]);
      hide Asked, DoInvoke, HasMoved;
    } else {
      IdleCommit(lib, ledger, h, tx);
      hide Execute, Applies, MovementOf;
    }
  }

  lemma AppliesIsNoted(lib: Lib, ledger: Ledger, h: History, tx: Tx)
    requires Applies(lib, ledger, tx)
    ensures MovementOf(lib, ledger, h, tx) == Asked(lib, ledger, ledger[tx.args[0]].doc.core.args)
  {
    var id := tx.args[0];
    assert |tx.args| >= 2 && id in ledger && ledger[id].Record?;
    hide Asked, RegularCommit;
    var a := Application(ledger[id].doc.core.args, tx.args[1]);
    assert Applied(Note(lib, ledger, h, tx), id) == Applied(h, id) + [a];
  }

  lemma IdleCommit(lib: Lib, ledger: Ledger, h: History, tx: Tx)
    requires tx.CommitTx? && tx.args != [] && tx.args[0] != "outchain" && !Applies(lib, ledger, tx)
    ensures Execute(lib, ledger, tx) == ledger && MovementOf(lib, ledger, h, tx) == None
  {
    hide Asked, DoInvoke;
    assert RegularCommit(lib, ledger, tx.args).Some? ==> RegularCommit(lib, ledger, tx.args).value == map[];
    assert ledger + map[] == ledger;
  }

  lemma ExecutedMoves(lib: Lib, ledger: Ledger, id: string, call: seq<string>, cell: Cell)
    requires id in ledger && DoInvoke(lib, ledger, call).Some?
    ensures Asked(lib, ledger, call).Some?
    ensures HasMoved(ledger, (ledger + DoInvoke(lib, ledger, call).value)[id := cell], Asked(lib, ledger, call), {id})
  {
    InvokeMoves(lib, ledger, call);
    hide Asked, DoInvoke, Change, Balance;
  }

  /** What a commit that executes a contract writes. */
  lemma AppliesWrites(lib: Lib, ledger: Ledger, tx: Tx)
    requires Applies(lib, ledger, tx)
    ensures var id := tx.args[0];
            var call := ledger[id].doc.core.args;
            && DoInvoke(lib, ledger, call).Some?
            && Execute(lib, ledger, tx) == (ledger + DoInvoke(lib, ledger, call).value)
                 [id := Record(ledger[id].doc.(status := Finished, receipt := tx.args[1]))]
  {
    var id := tx.args[0];
    var doc := ledger[id].doc;
    var writes := DoInvoke(lib, ledger, doc.core.args).value;
    hide DoInvoke;
    assert RegularCommit(lib, ledger, tx.args).value == writes + map[id := Record(Doc(Finished, doc.contractId, tx.args[1], doc.core))];
    assert ledger + (writes + map[id := Record(Doc(Finished, doc.contractId, tx.args[1], doc.core))])
        == (ledger + writes)[id := Record(Doc(Finished, doc.contractId, tx.args[1], doc.core))];
  }

  /** A precommitted contract is executed by exactly the first commit that comes with
      a receipt while its document is there, if it asks for an invocation and both
      accounts exist and the amount is a number. */
  lemma CommitAppliesIff(lib: Lib, ledger: Ledger, txs: seq<Tx>, args: seq<string>)
    requires FreshRun(lib, ledger, txs) && forall key :: key in ledger ==> ledger[key].Amount?
    ensures var (l, h) := After(lib, ledger, txs);
            Applies(lib, l, CommitTx(args)) <==>
              && |args| >= 2 && args[0] != "outchain" && args[0] in l && l[args[0]].Record?
              && Applied(h, args[0]) == [] && args[0] in h.recorded
              && var r := h.recorded[args[0]];
                 |r.args| >= 5 && r.args[3] == "invoke" && Asked(lib, l, lib.split(r.args[4])).Some?
  {
    RunKeepsInv(lib, ledger, txs);
    var (l, h) := After(lib, ledger, txs);
    hide After, FreshRun;
    if |args| >= 2 {
      assert ContractOk(lib, l, h, args[0]);
      if args[0] in l && l[args[0]].Record? { InvokeMoves(lib, l, l[args[0]].doc.core.args); }
    }
  }

  // ---------- Accounts over runs ----------

  /** No transaction deletes the account or gives its name to a contract. */
  predicate Undisturbed(txs: seq<Tx>, account: string) {
    forall tx :: tx in txs ==> tx != DeleteTx([account]) && (tx.PrecommitTx? ==> tx.id != account)
  }

  /** The sum of all movements of a run to and from an account. */
  function Flow(lib: Lib, ledger: Ledger, txs: seq<Tx>, account: string): int {
    if txs == [] then 0
    else
      var (l, h) := After(lib, ledger, txs[..|txs| - 1]);
      Flow(lib, ledger, txs[..|txs| - 1], account) + Change(MovementOf(lib, l, h, txs[|txs| - 1]), account)
  }

  lemma StepMovesAccount(lib: Lib, ledger: Ledger, h: History, tx: Tx, account: string)
    requires account in ledger && ledger[account].Amount?
    requires tx != DeleteTx([account]) && (tx.PrecommitTx? ==> tx.id != account)
    ensures var l := Execute(lib, ledger, tx);
            && account in l && l[account].Amount?
            && l[account].n == Wrap(ledger[account].n + Change(MovementOf(lib, ledger, h, tx), account))
  {
    hide HasMoved, Change, Wrap, DoInvoke, Asked;
    if tx.InvokeTx? || (tx.CommitTx? && tx.args != [] && tx.args[0] == "outchain") {
      hide Execute, MovementOf;
      InvocationMoves(lib, ledger, h, tx);
      MovedAccount(ledger, Execute(lib, ledger, tx), MovementOf(lib, ledger, h, tx), {}, account);
    } else {
      NothingMoved(ledger, account);
      if tx.CommitTx? && tx.args != [] {
        assert Applies(lib, ledger, tx) ==> tx.args[0] != account;
        hide Execute, MovementOf, Applies;
        CommitMoves(lib, ledger, h, tx);
        if Applies(lib, ledger, tx) {
          MovedAccount(ledger, Execute(lib, ledger, tx), MovementOf(lib, ledger, h, tx), {tx.args[0]}, account);
        }
      } else if tx.DeleteTx? {
        assert tx.args == [account] || |tx.args| != 1 || tx.args[0] != account;
      }
    }
  }

  lemma NothingMoved(ledger: Ledger, account: string)
    requires account in ledger && ledger[account].Amount?
    ensures ledger[account].n == Wrap(ledger[account].n + Change(None, account))
  {
  }

  lemma MovedAccount(before: Ledger, after: Ledger, m: Option<Movement>, documents: set<string>, account: string)
    requires account in before && before[account].Amount? && account !in documents && HasMoved(before, after, m, documents)
    ensures account in after && after[account].Amount?
    ensures after[account].n == Wrap(before[account].n + Change(m, account))
  {
    WrapIsIdentityIff(before[account].n);
    hide Wrap;
  }

  lemma WrapWrap(x: int, d: int)
    ensures Wrap(Wrap(x) + d) == Wrap(x + d)
  {
  }

  /** Over any run an account's balance is its first one plus what it received and
      minus what it paid, in 64 bits: in successful invocations, commits from outside,
      and the transfers of contracts noted as executed. */
  lemma {:induction false} BalanceIsFlow(lib: Lib, ledger: Ledger, txs: seq<Tx>, account: string)
    requires account in ledger && ledger[account].Amount? && Undisturbed(txs, account)
    ensures var l := After(lib, ledger, txs).0;
            && account in l && l[account].Amount?
            && l[account].n == Wrap(ledger[account].n + Flow(lib, ledger, txs, account))
  {
    hide Execute, MovementOf, Change, Note, Wrap;
    WrapIsIdentityIff(ledger[account].n);
    if txs != [] {
      var init, tx := txs[..|txs| - 1], txs[|txs| - 1];
      assert tx in txs && forall t :: t in init ==> t in txs;
      BalanceIsFlow(lib, ledger, init, account);
      var (l, h) := After(lib, ledger, init);
      StepMovesAccount(lib, l, h, tx, account);
      WrapWrap(ledger[account].n + Flow(lib, ledger, init, account), Change(MovementOf(lib, l, h, tx), account));
    }
  }

  // ---------- Conservation ----------

  function Weight(cell: Cell): int {
    AmountOf(cell)
  }

  /** The sum of all balances. */
  ghost function Sum(ledger: Ledger): int {
    Total(ledger, Weight)
  }

  lemma SumPut(ledger: Ledger, key: string, cell: Cell)
    ensures Sum(ledger[key := cell]) ==
              Sum(ledger) - (if key in ledger then Weight(ledger[key]) else 0) + Weight(cell)
  {
    TotalUpdate(ledger, Weight, key, cell);
  }

  /** What a transfer does to the sum: with different payer and payee it keeps it
      up to wrap-around; a transfer to oneself adds the amount. */
  lemma TransferSum(lib: Lib, ledger: Ledger, args: seq<string>)
    requires DoInvoke(lib, ledger, args).Some?
    ensures var a, b, x := AmountOf(ledger[args[0]]), AmountOf(ledger[args[1]]), lib.atoi(args[2]).value;
            Sum(ledger + DoInvoke(lib, ledger, args).value) ==
              if args[0] == args[1] then Sum(ledger) - b + Wrap(b + x)
              else Sum(ledger) - a - b + Wrap(a - x) + Wrap(b + x)
  {
    var a: int, b: int, x: int := AmountOf(ledger[args[0]]), AmountOf(ledger[args[1]]), lib.atoi(args[2]).value;
    var l1 := ledger[args[0] := Amount(Wrap(a - x))];
    SumPut(ledger, args[0], Amount(Wrap(a - x)));
    SumPut(l1, args[1], Amount(Wrap(b + x)));
    assert ledger + DoInvoke(lib, ledger, args).value == l1[args[1] := Amount(Wrap(b + x))];
  }

  /** No balance leaves the range of 64 bits. */
  predicate NoOverflow(lib: Lib, ledger: Ledger, args: seq<string>)
    requires DoInvoke(lib, ledger, args).Some?
  {
    var a, b, x := AmountOf(ledger[args[0]]), AmountOf(ledger[args[1]]), lib.atoi(args[2]).value;
    -I63 <= a - x < I63 && -I63 <= b + x < I63
  }

  lemma WrapIsIdentityIff(x: int)
    ensures Wrap(x) == x <==> -I63 <= x < I63
    ensures Wrap(x) % U64 == x % U64
  {
  }

  /** Without overflow a transfer keeps the sum exactly when payer and payee differ
      or nothing is transferred. */
  lemma TransferConservesIff(lib: Lib, ledger: Ledger, args: seq<string>)
    requires DoInvoke(lib, ledger, args).Some? && NoOverflow(lib, ledger, args)
    ensures Sum(ledger + DoInvoke(lib, ledger, args).value) == Sum(ledger) <==>
              args[0] != args[1] || lib.atoi(args[2]).value == 0
  {
    TransferSum(lib, ledger, args);
    var a, b, x := AmountOf(ledger[args[0]]), AmountOf(ledger[args[1]]), lib.atoi(args[2]).value;
    WrapIsIdentityIff(a - x);
    WrapIsIdentityIff(b + x);
    hide Wrap;
  }

  /** A transfer that keeps the sum: different parties, no overflow. */
  predicate CleanTransfer(lib: Lib, ledger: Ledger, args: seq<string>) {
    DoInvoke(lib, ledger, args).Some? ==> args[0] != args[1] && NoOverflow(lib, ledger, args)
  }

  /** Transactions that conserve: clean transfers, contract identifiers that are
      not account names, no deletion. */
  predicate Clean(lib: Lib, ledger: Ledger, tx: Tx) {
    match tx
    case InvokeTx(args) => CleanTransfer(lib, ledger, args)
    case DeleteTx(_) => false
    case PrecommitTx(id, _, _) => id !in ledger
    case CommitTx(args) =>
      if args != [] && args[0] == "outchain" then |args| >= 3 ==> CleanTransfer(lib, ledger, args[1..][2..])
      else Applies(lib, ledger, tx) ==>
        var callArgs := ledger[args[0]].doc.core.args;
        CleanTransfer(lib, ledger, callArgs) && args[0] !in callArgs[..2]
  }

  lemma CleanTransferKeepsSum(lib: Lib, ledger: Ledger, args: seq<string>)
    requires CleanTransfer(lib, ledger, args)
    ensures Sum(Written(ledger, DoInvoke(lib, ledger, args))) == Sum(ledger)
  {
    if DoInvoke(lib, ledger, args).Some? { TransferConservesIff(lib, ledger, args); }
  }

  lemma CleanStepKeepsSum(lib: Lib, ledger: Ledger, tx: Tx)
    requires Clean(lib, ledger, tx)
    ensures Sum(Execute(lib, ledger, tx)) == Sum(ledger)
  {
    match tx
    case InvokeTx(args) => CleanTransferKeepsSum(lib, ledger, args);
    case PrecommitTx(id, creator, args) =>
      if Precommit(lib, id, creator, args).Some? {
        SumPut(ledger, id, Precommit(lib, id, creator, args).value[id]);
        assert ledger + Precommit(lib, id, creator, args).value == ledger[id := Precommit(lib, id, creator, args).value[id]];
      }
    case CommitTx(args) =>
      if args != [] && args[0] == "outchain" {
        if OutchainCommit(lib, ledger, args[1..]).Some? { CleanTransferKeepsSum(lib, ledger, args[1..][2..]); }
      } else if Applies(lib, ledger, tx) {
        CommitKeepsSum(lib, ledger, tx);
      } else {
        assert Commit(lib, ledger, args).Some? ==> ledger + Commit(lib, ledger, args).value == ledger;
      }
  }

  lemma CommitKeepsSum(lib: Lib, ledger: Ledger, tx: Tx)
    requires Applies(lib, ledger, tx) && Clean(lib, ledger, tx)
    ensures Sum(ledger + RegularCommit(lib, ledger, tx.args).value) == Sum(ledger)
  {
    var args := tx.args;
    var core := ledger[args[0]].doc.core;
    var writes := DoInvoke(lib, ledger, core.args).value;
    var l1 := ledger + writes;
    CleanTransferKeepsSum(lib, ledger, core.args);
    assert args[0] != core.args[0] && args[0] != core.args[1] by {
      assert core.args[..2][0] == core.args[0] && core.args[..2][1] == core.args[1];
    }
    assert l1[args[0]] == ledger[args[0]];
    var cell := RegularCommit(lib, ledger, args).value[args[0]];
    SumPut(l1, args[0], cell);
    assert ledger + RegularCommit(lib, ledger, args).value == l1[args[0] := cell];
  }

  predicate CleanRun(lib: Lib, ledger: Ledger, txs: seq<Tx>) {
    txs == [] ||
    (CleanRun(lib, ledger, txs[..|txs| - 1]) && Clean(lib, After(lib, ledger, txs[..|txs| - 1]).0, txs[|txs| - 1]))
  }

  /** Over any run of clean transactions the sum of all balances never changes. */
  lemma {:induction false} RunConserves(lib: Lib, ledger: Ledger, txs: seq<Tx>)
    requires CleanRun(lib, ledger, txs)
    ensures Sum(After(lib, ledger, txs).0) == Sum(ledger)
  {
    hide Clean, Execute, Sum;
    if txs != [] {
      RunConserves(lib, ledger, txs[..|txs| - 1]);
      CleanStepKeepsSum(lib, After(lib, ledger, txs[..|txs| - 1]).0, txs[|txs| - 1]);
    }
  }

  // ---------- The chaincode against its stub ----------

  /** One transaction's view of the ledger: reads see the committed state, writes
      are collected until the end. */
  class Stub {
    const state: Ledger
    var writes: Ledger

    constructor (state: Ledger)
      ensures this.state == state && writes == map[]
    {
      this.state, writes := state, map[];
    }

    method GetState(key: string) returns (r: Option<Cell>)
      ensures r == if key in state then Some(state[key]) else None
    {
      r := if key in state then Some(state[key]) else None;
    }

    method PutState(key: string, cell: Cell)
      modifies this
      ensures writes == old(writes)[key := cell]
    {
      writes := writes[key := cell];
    }
  }

  class SimpleChaincode {
    const lib: Lib

    constructor (lib: Lib)
      ensures this.lib == lib
    {
      this.lib := lib;
    }

    method Transfer(stub: Stub, args: seq<string>) returns (ok: bool)
      modifies stub
      ensures ok == DoInvoke(lib, stub.state, args).Some?
      ensures stub.writes == if ok then old(stub.writes) + DoInvoke(lib, stub.state, args).value else old(stub.writes)
    {
      if |args| != 3 { return false; }
      var a := stub.GetState(args[0]);
      if a.None? { return false; }
      var aval: int64 := AmountOf(a.value);
      var b := stub.GetState(args[1]);
      if b.None? { return false; }
      var bval: int64 := AmountOf(b.value);
      var x := lib.atoi(args[2]);
      if x.None? { return false; }
      aval := Wrap(aval - x.value);
      bval := Wrap(bval + x.value);
      stub.PutState(args[0], Amount(aval));
      stub.PutState(args[1], Amount(bval));
      assert stub.writes == old(stub.writes) + DoInvoke(lib, stub.state, args).value;
      return true;
    }

    /** invoke: the error of the transfer is built into a response that is dropped,
        and success reported. */
    method Invoke(stub: Stub, args: seq<string>) returns (success: bool)
      modifies stub
      ensures success
      ensures DoInvoke(lib, stub.state, args).None? ==> stub.writes == old(stub.writes)
      ensures DoInvoke(lib, stub.state, args).Some? ==>
                stub.writes == old(stub.writes) + DoInvoke(lib, stub.state, args).value
    {
      var ok := Transfer(stub, args);
      return true;
    }

    method PrecommitCall(stub: Stub, id: string, creator: string, args: seq<string>) returns (ok: bool)
      modifies stub
      ensures ok == Precommit(lib, id, creator, args).Some?
      ensures stub.writes == if ok then old(stub.writes) + Precommit(lib, id, creator, args).value else old(stub.writes)
    {
      if |args| < 5 || |lib.split(args[4])| == 0 { return false; }
      var callArgs := lib.split(args[4]);
      var core := ContractCore(args[0], args[1], args[2], callArgs[0], args[3], callArgs, creator);
      stub.PutState(id, Record(Doc(Init, id, "", core)));
      assert stub.writes == old(stub.writes) + Precommit(lib, id, creator, args).value;
      return true;
    }

    /** regularCommit: what it writes on success; a failed transaction is dropped
        with its writes. */
    method RegularCommitCall(stub: Stub, args: seq<string>) returns (ok: bool)
      requires stub.writes == map[]
      modifies stub
      ensures ok == RegularCommit(lib, stub.state, args).Some?
      ensures ok ==> stub.writes == RegularCommit(lib, stub.state, args).value
    {
      if |args| < 2 { return false; }
      var raw := stub.GetState(args[0]);
      if raw.None? || raw.value.Amount? { return false; }
      var c := RebuildIContract(raw.value.doc);
      if c.status == Finished { return true; }
      if !c.PrecommitContract? { return false; }
      if c.core.toCallFunc != "invoke" { return false; }
      var done := Transfer(stub, c.core.args);
      if !done { return false; }
      assert map[] + DoInvoke(lib, stub.state, c.core.args).value == DoInvoke(lib, stub.state, c.core.args).value;
      c := c.(status := Finished);
      c := c.(receipt := args[1]);
      stub.PutState(args[0], Record(Doc(c.status, c.contractId, c.receipt, c.core)));
      assert stub.writes == RegularCommit(lib, stub.state, args).value;
      return true;
    }
  }
}
