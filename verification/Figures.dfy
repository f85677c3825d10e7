/** The five figures of a snapshot node, of a group's running totals and of a response value. */
module Figures {
  import opened GoInt
  import Folds

  const GB: int := 1024 * 1024 * 1024

  datatype Figures = Figures(nodes: int, gpus: int, memory: int, occupied: int, pods: int)

  /** What Go gives a fresh record. */
  function Zeros(): Figures
  {
    Figures(0, 0, 0, 0, 0)
  }

  /** Applies one operation to the int32 figures and one to memory, the only int64. */
  function Each(narrow: int -> int, wide: int -> int, f: Figures): Figures
  {
    Figures(narrow(f.nodes), narrow(f.gpus), wide(f.memory), narrow(f.occupied), narrow(f.pods))
  }

  function Plus(a: Figures, b: Figures): Figures
  {
    Both((x: int, y: int) => x + y, a, b)
  }

  function Both(op: (int, int) -> int, a: Figures, b: Figures): Figures
  {
    Figures(op(a.nodes, b.nodes), op(a.gpus, b.gpus), op(a.memory, b.memory),
            op(a.occupied, b.occupied), op(a.pods, b.pods))
  }

  function Times(n: int, a: Figures): Figures
  {
    Each(x => n * x, x => n * x, a)
  }

  /** What the running totals hold for the mathematical totals `f`: memory in an int64, the rest in int32. */
  function WrapTotals(f: Figures): Figures
  {
    Each(x => Wrap32(x), x => Wrap64(x), f)
  }

  /** What a response value holds for the mathematical figures `f`: memory is in GB there, and an int32. */
  function WrapValue(f: Figures): Figures
  {
    Each(x => Wrap32(x), x => Wrap32(x), f)
  }

  function DividedBy(f: Figures, n: int): Figures
    requires n > 0
  {
    Each(x => Quot(x, n), x => Quot(x, n), f)
  }

  /** Memory rounded from bytes to GB, as response values carry it. */
  function InGB(f: Figures): Figures
  {
    f.(memory := Wrap32(Quot(f.memory, GB)))
  }

  predicate AtMost(a: Figures, b: Figures)
  {
    a.nodes <= b.nodes && a.gpus <= b.gpus && a.memory <= b.memory && a.occupied <= b.occupied && a.pods <= b.pods
  }

  /** No running total overflows its Go type. */
  predicate TotalsFit(f: Figures)
  {
    WrapTotals(f) == f
  }

  lemma WrapTotalsAbsorbs(a: Figures, b: Figures)
    ensures WrapTotals(Plus(WrapTotals(a), b)) == WrapTotals(Plus(a, b))
  {
    Wrap32Absorbs(a.nodes, b.nodes);
    Wrap32Absorbs(a.gpus, b.gpus);
    Wrap64Absorbs(a.memory, b.memory);
    Wrap32Absorbs(a.occupied, b.occupied);
    Wrap32Absorbs(a.pods, b.pods);
  }

  lemma WrapValueAbsorbs(a: Figures, b: Figures)
    ensures WrapValue(Plus(WrapValue(a), b)) == WrapValue(Plus(a, b))
  {
    Wrap32Absorbs(a.nodes, b.nodes);
    Wrap32Absorbs(a.gpus, b.gpus);
    Wrap32Absorbs(a.memory, b.memory);
    Wrap32Absorbs(a.occupied, b.occupied);
    Wrap32Absorbs(a.pods, b.pods);
  }

  const FIGURES: Folds.Monoid<Figures> := Folds.Monoid(Plus, Zeros())

  lemma FiguresLawful()
    ensures Folds.Lawful(FIGURES)
  {
  }

  lemma TimesStep(n: nat, f: Figures)
    ensures Times(0, f) == Zeros()
    ensures Times(n + 1, f) == Plus(Times(n, f), f)
  {
  }

  lemma {:induction false} RepeatIsTimes(n: nat, f: Figures)
    ensures Folds.Repeat(FIGURES, n, f) == Times(n, f)
  {
    hide Zeros, Times, Plus;
    if n == 0 {
      TimesStep(0, f);
    } else {
      RepeatIsTimes(n - 1, f);
      TimesStep(n - 1, f);
    }
  }
}
