/** Notes a wallet holds, kept in one list per ticker, and sums over them. */
module Notes {
  import opened Util

  /** A 256-bit field element. */
  type Element = nat

  const TWO64: nat := 0x1_0000_0000_0000_0000

  type U64 = n: nat | n < TWO64

  type Ticker = string

  datatype Note = Note(kind: Element, contract: Element, address: Element, psi: Element, value: Element)

  datatype InputNote = InputNote(note: Note, secretKey: Element)

  /** Notes by ticker. */
  type Holdings = map<Ticker, seq<InputNote>>

  const PaddingNote: Note := Note(2, 0, 0, 0, 0)

  const PaddingInput: InputNote := InputNote(PaddingNote, 0)

  /** The amount of a note is the low 64-bit word of its value. */
  function Amount(note: Note): nat {
    note.value % TWO64
  }

  function Worth(n: InputNote): nat {
    Amount(n.note)
  }

  function NotesOf(m: Holdings, t: Ticker): seq<InputNote> {
    if t in m then m[t] else []
  }

  function TakeOut<A>(s: seq<A>, i: nat): seq<A>
    requires i < |s|
  {
    s[..i] + s[i + 1..]
  }

  // ---------------------------------------------------------------------------------------
  // Sums
  // ---------------------------------------------------------------------------------------

  function SeqSum(s: seq<InputNote>, f: InputNote -> nat): nat {
    if s == [] then 0 else SeqSum(s[..|s| - 1], f) + f(s[|s| - 1])
  }

  lemma {:induction false} SeqSumConcat(a: seq<InputNote>, b: seq<InputNote>, f: InputNote -> nat)
    ensures SeqSum(a + b, f) == SeqSum(a, f) + SeqSum(b, f)
    decreases |b|
  {
    if b == [] {
      assert a + b == a;
    } else {
      var n := |b| - 1;
      SeqSumConcat(a, b[..n], f);
      assert (a + b)[..|a + b| - 1] == a + b[..n];
    }
  }

  lemma SeqSumTakeOut(s: seq<InputNote>, i: nat, f: InputNote -> nat)
    requires i < |s|
    ensures SeqSum(s, f) == SeqSum(TakeOut(s, i), f) + f(s[i])
  {
    hide SeqSum;
    assert s == s[..i] + ([s[i]] + s[i + 1..]);
    SeqSumConcat(s[..i], [s[i]] + s[i + 1..], f);
    SeqSumConcat([s[i]], s[i + 1..], f);
    SeqSumConcat(s[..i], s[i + 1..], f);
    SeqSumOne(s[i], f);
  }

  lemma SeqSumOne(n: InputNote, f: InputNote -> nat)
    ensures SeqSum([n], f) == f(n)
  {
    assert [n][..0] == [];
  }

  function AtTicker(m: Holdings, f: InputNote -> nat): Ticker -> nat {
    t => SeqSum(NotesOf(m, t), f)
  }

  /** The sum of `f` over every note held, under every ticker. */
  ghost function Weigh(m: Holdings, f: InputNote -> nat): nat {
    SumOver(m.Keys, AtTicker(m, f))
  }

  /** The total amount held. */
  ghost function Total(m: Holdings): nat {
    Weigh(m, Worth)
  }

  /** How often a note is held. */
  ghost function Count(m: Holdings, x: InputNote): nat {
    Weigh(m, n => if n == x then 1 else 0)
  }

  lemma WeighUpdate(m: Holdings, t: Ticker, s: seq<InputNote>, f: InputNote -> nat)
    ensures Weigh(m[t := s], f) + SeqSum(NotesOf(m, t), f) == Weigh(m, f) + SeqSum(s, f)
  {
    hide SumOver, SeqSum;
    var after := m[t := s];
    var rest := m.Keys - {t};
    SumOverRemove(after.Keys, AtTicker(after, f), t);
    assert after.Keys - {t} == rest;
    SumOverAgree(rest, AtTicker(m, f), AtTicker(after, f));
    if t in m {
      SumOverRemove(m.Keys, AtTicker(m, f), t);
    } else {
      assert rest == m.Keys;
      EmptySum(f);
    }
  }

  lemma EmptySum(f: InputNote -> nat)
    ensures SeqSum([], f) == 0 && Weigh(map[], f) == 0
  {
  }
}
