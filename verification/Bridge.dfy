/** The redeem path as one state machine: vault, chain, shared state and Bitcoin withdrawal together. */
module Bridge {
  import opened Common
  import opened Assembler
  import opened Withdraw
  import V = Vault
  import VR = VaultRuns
  import R = Redeem
  import RR = RedeemRuns

  /** `requests` and `prepares` are the events on the chain; `jobs` are the rows for which the chain manager asked
      the vault for outpoints, as they were then. */
  datatype Bridge = Bridge(
    vault: VR.State,
    redeems: R.Table,
    requests: set<R.RequestedEvent>,
    prepares: set<R.PreparedEvent>,
    book: Book,
    jobs: map<Hash, R.Row>)

  const START: Bridge := Bridge(VR.START, map[], {}, {}, Book(map[], [], multiset{}), map[])

  datatype Step =
    | VaultStep(st: VR.Step)
    | UserRequests(r: R.RequestedEvent)
    | SeeRequested(r: R.RequestedEvent)
    | SeePrepared(p: R.PreparedEvent)
    | Request(h: Hash, rows: seq<Key>, clock: seq<int>)
    | Land(i: nat, prepare: Hash)
    | Withdraw(h: Hash, answer: Answer)
    | Mined(h: Hash, btcTxId: Hash, amount: int, completeOk: bool)

  /** The prepared event that the chain echoes for a selection of outpoints. */
  function Echo(h: Hash, prepare: Hash, row: R.Row, sel: seq<Key>): (p: R.PreparedEvent)
    ensures |p.txIds| == |p.idxs| == |sel|
    ensures forall i :: 0 <= i < |sel| ==> p.txIds[i] == sel[i].txId && p.idxs[i] == sel[i].vout % 0x1_0000
  {
    R.PreparedEvent(h, prepare, row.requester, row.receiver, row.amount,
                    seq(|sel|, i requires 0 <= i < |sel| => sel[i].txId),
                    seq(|sel|, i requires 0 <= i < |sel| => ToOutpoint(sel[i]).idx))
  }

  /** A failed handler leaves the table as it was. */
  function Settle(t: R.Table, r: Result<R.Table, R.Error>): R.Table {
    if r.Ok? then r.value else t
  }

  /** The vault step by which `Request` starts a selection. */
  function Choosing(row: R.Row, h: Hash, rows: seq<Key>, clock: seq<int>): VR.Step {
    VR.Begin(rows, row.amount + V.SAFE_MARGIN, Some(h), clock)
  }

  /** The redeem that a returned selection was made for. */
  ghost predicate Serves(s: Bridge, c: VR.Claim) {
    c.id.Some? && c.id.value in s.jobs
  }

  /** When a step can happen. A preparation may land on the chain at any time after the selection was returned, and
      more than once: the checks by which the chain manager avoids preparing twice are left out, so every real run
      is among these. */
  ghost predicate Enabled(s: Bridge, st: Step) {
    match st
    case VaultStep(op) => !op.Begin? && VR.Legal(s.vault, op) && (op.Add? ==> 0 <= op.k.vout < 0x1_0000)
    case UserRequests(_) => true
    case SeeRequested(r) => r in s.requests
    case SeePrepared(p) => p in s.prepares
    case Request(h, rows, clock) =>
      && h in s.redeems && s.redeems[h].status == R.Requested
      && VR.Legal(s.vault, Choosing(s.redeems[h], h, rows, clock))
    case Land(i, _) => i < |s.vault.services| && Serves(s, s.vault.services[i])
    case Withdraw(h, _) => h in s.redeems && s.redeems[h].status == R.Prepared
    case Mined(h, b, _, _) => h in s.book.tracking && s.book.tracking[h].btcHash == b
  }

  ghost function Do(cfg: Config, s: Bridge, st: Step): Bridge
    requires Enabled(s, st)
  {
    match st
    case VaultStep(op) => s.(vault := VR.Do(s.vault, op))
    case UserRequests(r) => s.(requests := s.requests + {r})
    case SeeRequested(r) => s.(redeems := Settle(s.redeems, R.OnRequested(s.redeems, r)))
    case SeePrepared(p) => s.(redeems := Settle(s.redeems, R.OnPrepared(s.redeems, p)))
    case Request(h, rows, clock) =>
      s.(vault := VR.Do(s.vault, Choosing(s.redeems[h], h, rows, clock)), jobs := s.jobs[h := s.redeems[h]])
    case Land(i, prepare) =>
      var c := s.vault.services[i];
      s.(prepares := s.prepares + {Echo(c.id.value, prepare, s.jobs[c.id.value], c.sel)})
    case Withdraw(h, answer) => s.(book := PayOne(cfg, s.vault.table, s.book, h, s.redeems[h], answer))
    case Mined(h, b, amount, completeOk) =>
      s.(book := Complete(s.book, h, completeOk),
         redeems := Settle(s.redeems, R.OnRedeemed(s.redeems, h, b, Some(amount))))
  }

  ghost predicate Run(cfg: Config, steps: seq<Step>)
    decreases |steps|, 0
  {
    steps == [] || (Run(cfg, steps[..|steps| - 1]) && Enabled(Final(cfg, steps[..|steps| - 1]), steps[|steps| - 1]))
  }

  ghost function Final(cfg: Config, steps: seq<Step>): Bridge
    requires Run(cfg, steps)
    decreases |steps|, 1
  {
    if steps == [] then START else Do(cfg, Final(cfg, steps[..|steps| - 1]), steps[|steps| - 1])
  }
}
