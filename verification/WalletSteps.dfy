/** A wallet: notes waiting for confirmation, notes that can be spent, and their running balance. */
module WalletSteps {
  import opened Util
  import opened Notes
  import opened NoteSelection

  /** What the wallet takes as given: the two supported contracts and the hash functions. */
  datatype Env = Env(
    wcbtc: Element,
    usdc: Element,
    upper: string -> string,
    address: Element -> Element,
    psi: Element -> Element,
    merge: Note -> Element)

  datatype Purse = Purse(pending: Holdings, avail: Holdings, balance: nat)

  datatype WalletError = LowBalance | CantPullNote | KeyNotFound

  datatype Receipt =
    | Send(inputs: (InputNote, InputNote), outputs: (Note, Note))
    | Minted(outputs: (Note, Note))
    | Burned(inputs: (InputNote, InputNote), evmAddress: Element, substitute: bool)
    | Address(note: Note)
    | Nothing

  /** `Panicked` is an unsupported contract or ticker. */
  datatype Outcome = Done(receipt: Receipt) | Failed(error: WalletError) | Panicked

  function TickerOf(env: Env, contract: Element): Option<Ticker> {
    if contract == env.wcbtc then Some("WCBTC")
    else if contract == env.usdc then Some("USDC")
    else None
  }

  function ContractOf(env: Env, ticker: Ticker): Option<Element> {
    if ticker == "WCBTC" || env.upper(ticker) == "WCBTC" then Some(env.wcbtc)
    else if ticker == "USDC" || env.upper(ticker) == "USDC" then Some(env.usdc)
    else None
  }

  function Commitment(env: Env, note: Note): Element {
    if note.value == 0 then 0 else env.merge(note)
  }

  /** A note of `amount` to a fresh key of the wallet's own. */
  function OwnNote(env: Env, kind: Element, contract: Element, key: Element, amount: nat): InputNote {
    InputNote(Note(kind, contract, env.address(key), env.psi(key), amount), key)
  }

  // ---------------------------------------------------------------------------------------
  // Steps on values; the balance is a 64-bit word
  // ---------------------------------------------------------------------------------------

  function Push(w: Purse, t: Ticker, n: InputNote): Purse {
    w.(avail := w.avail[t := NotesOf(w.avail, t) + [n]], balance := (w.balance + Worth(n)) % TWO64)
  }

  function PullAt(w: Purse, t: Ticker, i: nat): Purse
    requires i < |NotesOf(w.avail, t)|
  {
    var notes := NotesOf(w.avail, t);
    w.(avail := w.avail[t := TakeOut(notes, i)], balance := (w.balance - Worth(notes[i])) % TWO64)
  }

  function Pull(w: Purse, t: Ticker, note: Note): Option<Purse> {
    var i := FirstSame(NotesOf(w.avail, t), note);
    if i < |NotesOf(w.avail, t)| then Some(PullAt(w, t, i)) else None
  }

  function PullChoice(w: Purse, t: Ticker, c: Choice): Purse
    requires InRange(Amounts(NotesOf(w.avail, t)), c)
  {
    var first := PullAt(w, t, c.i);
    if c.One? then first
    else
      assert |NotesOf(first.avail, t)| == |NotesOf(w.avail, t)| - 1;
      PullAt(first, t, c.j - 1)
  }

  function ChangeOf(env: Env, notes: seq<InputNote>, amount: nat, key: Element, c: Choice): InputNote
    requires Covers(Amounts(notes), amount, c)
  {
    var origin := notes[c.i].note;
    OwnNote(env, origin.kind, origin.contract, key, Sum(Amounts(notes), c) - amount)
  }

  /** The wallet after taking the chosen notes and keeping the change. */
  function SelectStep(env: Env, w: Purse, t: Ticker, amount: nat, key: Element, c: Choice): Purse
    requires Covers(Amounts(NotesOf(w.avail, t)), amount, c)
  {
    var notes := NotesOf(w.avail, t);
    var pulled := PullChoice(w, t, c);
    if Sum(Amounts(notes), c) == amount then pulled
    else Push(pulled, t, ChangeOf(env, notes, amount, key, c))
  }

  function SelectInputs(notes: seq<InputNote>, c: Choice): (InputNote, InputNote)
    requires InRange(Amounts(notes), c)
  {
    match c
    case One(i) => (notes[i], PaddingInput)
    case Two(i, j) => (notes[i], notes[j])
  }

  function SelectChange(env: Env, notes: seq<InputNote>, amount: nat, key: Element, c: Choice): Note
    requires Covers(Amounts(notes), amount, c)
  {
    if Sum(Amounts(notes), c) == amount then PaddingNote else ChangeOf(env, notes, amount, key, c).note
  }

  // ---------------------------------------------------------------------------------------
  // Sync
  // ---------------------------------------------------------------------------------------

  function Matching(env: Env, notes: seq<InputNote>, c: Element): seq<InputNote> {
    if notes == [] then []
    else
      var n := |notes| - 1;
      Matching(env, notes[..n], c) + if Commitment(env, notes[n].note) == c then [notes[n]] else []
  }

  function Others(env: Env, notes: seq<InputNote>, c: Element): seq<InputNote> {
    if notes == [] then []
    else
      var n := |notes| - 1;
      Others(env, notes[..n], c) + if Commitment(env, notes[n].note) == c then [] else [notes[n]]
  }

  /** The pending notes with commitment `c`, ticker by ticker. */
  function Gather(env: Env, pending: Holdings, order: seq<Ticker>, c: Element): seq<InputNote> {
    if order == [] then []
    else
      var n := |order| - 1;
      Gather(env, pending, order[..n], c) + Matching(env, NotesOf(pending, order[n]), c)
  }

  function DropAll(env: Env, pending: Holdings, c: Element): Holdings {
    map t | t in pending :: Others(env, pending[t], c)
  }

  /** Push each note under its own contract's ticker; `None` if some contract is not supported. */
  function PushAll(env: Env, w: Purse, notes: seq<InputNote>): Option<Purse> {
    if notes == [] then Some(w)
    else
      var n := |notes| - 1;
      var before, ticker := PushAll(env, w, notes[..n]), TickerOf(env, notes[n].note.contract);
      if before.None? || ticker.None? then None else Some(Push(before.value, ticker.value, notes[n]))
  }

  /** One output commitment; `order` is the order in which the tickers come out of the hash map. */
  function SyncOne(env: Env, w: Purse, c: Element, order: seq<Ticker>): Option<Purse> {
    if c == 0 then Some(w)
    else PushAll(env, w.(pending := DropAll(env, w.pending, c)), Gather(env, w.pending, order, c))
  }

  function SyncAll(env: Env, w: Purse, outputs: seq<Element>, orders: seq<seq<Ticker>>): Option<Purse>
    requires |orders| == |outputs|
  {
    if outputs == [] then Some(w)
    else
      var n := |outputs| - 1;
      var before := SyncAll(env, w, outputs[..n], orders[..n]);
      if before.None? then None else SyncOne(env, before.value, outputs[n], orders[n])
  }

  /** The output commitments of the transactions, in order. */
  function Outputs(txns: seq<(Element, Element)>): seq<Element> {
    if txns == [] then [] else Outputs(txns[..|txns| - 1]) + [txns[|txns| - 1].0, txns[|txns| - 1].1]
  }

  /** Both outputs of every transaction, side by side and in the order of the transactions. */
  lemma {:induction false} OutputsExactly(txns: seq<(Element, Element)>)
    ensures |Outputs(txns)| == 2 * |txns|
    ensures forall i :: 0 <= i < |txns| ==> txns[i] == (Outputs(txns)[2 * i], Outputs(txns)[2 * i + 1])
    decreases |txns|
  {
    if txns != [] {
      var before := txns[..|txns| - 1];
      OutputsExactly(before);
      forall i | 0 <= i < |txns| ensures txns[i] == (Outputs(txns)[2 * i], Outputs(txns)[2 * i + 1]) {
        if i < |before| { assert txns[i] == before[i]; }
      }
    }
  }

  ghost predicate Enumerates(order: seq<Ticker>, keys: set<Ticker>) {
    Distinct(order) && forall t :: t in order <==> t in keys
  }

  // ---------------------------------------------------------------------------------------
  // Operations
  // ---------------------------------------------------------------------------------------

  datatype Request =
    | SpendTo(target: Note)
    | Receive(input: InputNote)
    | Mint(amount: U64, ticker: Ticker)
    | Burn(input: InputNote, evmAddress: Element, substitute: bool)
    | ImportNote(target: Note)
    | AddToAvail(input: InputNote)
    | GetAddress(amount: U64, ticker: Ticker)
    | Sync(txns: seq<(Element, Element)>)

  /** What a request leaves open: the random keys, and which way searches and hash maps went. */
  datatype Guess = Guess(key: Element, psi: Element, choice: Option<Choice>, ticker: Option<Ticker>, orders: seq<seq<Ticker>>)

  function FirstAddress(notes: seq<InputNote>, address: Element): (r: nat)
    ensures r <= |notes|
    ensures forall k :: 0 <= k < r ==> notes[k].note.address != address
    ensures r < |notes| ==> notes[r].note.address == address
  {
    if notes == [] then 0
    else if notes[0].note.address == address then 0
    else 1 + FirstAddress(notes[1..], address)
  }

  predicate HasAddress(pending: Holdings, t: Ticker, address: Element) {
    t in pending && FirstAddress(pending[t], address) < |pending[t]|
  }

  /** Move the pending entry for the note's address to the available notes, with the note as given. */
  function ImportStep(w: Purse, target: Note, t: Ticker): Purse
    requires HasAddress(w.pending, t, target.address)
  {
    var notes := w.pending[t];
    var i := FirstAddress(notes, target.address);
    Push(w.(pending := w.pending[t := TakeOut(notes, i)]), t, InputNote(target, notes[i].secretKey))
  }

  /** `g` is a way the request can go. */
  ghost predicate Possible(env: Env, w: Purse, r: Request, g: Guess) {
    match r
    case SpendTo(target) =>
      var t := TickerOf(env, target.contract);
      t.Some? ==> BestOrNone(Amounts(NotesOf(w.avail, t.value)), Amount(target), g.choice)
    case ImportNote(target) =>
      if g.ticker.Some? then HasAddress(w.pending, g.ticker.value, target.address)
      else forall t :: !HasAddress(w.pending, t, target.address)
    case Sync(txns) =>
      |g.orders| == |Outputs(txns)| && forall i :: 0 <= i < |g.orders| ==> Enumerates(g.orders[i], w.pending.Keys)
    case _ => true
  }

  ghost function Apply(env: Env, w: Purse, r: Request, g: Guess): (Purse, Outcome)
    requires Possible(env, w, r, g)
  {
    match r
    case SpendTo(target) =>
      var t := TickerOf(env, target.contract);
      if t.None? then (w, Panicked)
      else if Amount(target) > w.balance || g.choice.None? then (w, Failed(LowBalance))
      else
        var notes, c := NotesOf(w.avail, t.value), g.choice.value;
        (SelectStep(env, w, t.value, Amount(target), g.key, c),
         Done(Send(SelectInputs(notes, c), (target, SelectChange(env, notes, Amount(target), g.key, c)))))
    case Receive(input) =>
      var t := TickerOf(env, input.note.contract);
      if t.None? then (w, Panicked)
      else
        var n := OwnNote(env, 2, ContractOf(env, t.value).value, g.key, Amount(input.note));
        (Push(w, t.value, n), Done(Send((input, PaddingInput), (n.note, PaddingNote))))
    case Mint(amount, ticker) =>
      if ContractOf(env, ticker).None? then (w, Panicked)
      else
        var n := OwnNote(env, 2, ContractOf(env, ticker).value, g.key, amount);
        (Push(w, ticker, n), Done(Minted((n.note, PaddingNote))))
    case Burn(input, evmAddress, substitute) =>
      var t := TickerOf(env, input.note.contract);
      if t.None? then (w, Panicked)
      else
        var pulled := Pull(w, t.value, input.note);
        if pulled.None? then (w, Failed(CantPullNote))
        else (pulled.value, Done(Burned((input, PaddingInput), evmAddress, substitute)))
    case ImportNote(target) =>
      if g.ticker.None? then (w, Failed(KeyNotFound))
      else (ImportStep(w, target, g.ticker.value), Done(Nothing))
    case AddToAvail(input) =>
      var t := TickerOf(env, input.note.contract);
      if t.None? then (w, Panicked) else (Push(w, t.value, input), Done(Nothing))
    case GetAddress(amount, ticker) =>
      if ContractOf(env, ticker).None? then (w, Panicked)
      else
        var note := Note(2, ContractOf(env, ticker).value, env.address(g.key), g.psi, amount);
        (w.(pending := w.pending[ticker := [InputNote(note, g.key)]]), Done(Address(note)))
    case Sync(txns) =>
      var after := SyncAll(env, w, Outputs(txns), g.orders);
      if after.None? then (w, Panicked) else (after.value, Done(Nothing))
  }
}
