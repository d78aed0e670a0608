/** The rain gauge firmware (internal/sim/gauge.go), and what the rows derived from its uplinks say. */
module GaugeNode {
  import opened GaugeRainfall

  const WAKE := 300
  const DRY_INTERVAL := 900
  const WRAP := 0x1_0000_0000

  /** Rain in nanometres; times in whole seconds since boot. */
  datatype Node = Node(acc: nat, tips: int, lastTxStep: int, lastTxTips: int, nextWake: int, booted: bool)

  datatype Report = Report(step: int, tips: int, interval: int, reset: bool)

  datatype Sent = Nothing | Sent(report: Report)

  /** Rain that has fallen fills the bucket, which tips when it is full. */
  function Fill(n: Node, tipNM: int, fallen: nat): Node
    requires tipNM > 0
  {
    var acc := n.acc + fallen;
    var q := DivNat(acc, tipNM);
    if q > 0 then n.(acc := Left(acc, q, tipNM), tips := (n.tips + q) % WRAP) else n.(acc := acc)
  }

  /** What stays in the bucket after `q` tips. */
  function Left(acc: nat, q: nat, tipNM: int): (r: nat)
    requires q * tipNM <= acc
    ensures r + q * tipNM == acc
  {
    acc - q * tipNM
  }

  predicate StaysQuiet(n: Node, step: int) { n.booted && n.tips == n.lastTxTips && step - n.lastTxStep < DRY_INTERVAL }

  function StepNode(n0: Node, tipNM: int, step: int, fallen: nat): (Node, Sent)
    requires tipNM > 0
  {
    var n := Fill(n0, tipNM, fallen);
    if step < n.nextWake then (n, Nothing)
    else
      var w := n.(nextWake := n.nextWake + WAKE);
      if StaysQuiet(w, step) then (w, Nothing)
      else
        var interval := if step - w.lastTxStep < 65535 then step - w.lastTxStep else 65535;
        (w.(booted := true, lastTxStep := step, lastTxTips := w.tips), Sent(Report(step, w.tips, interval, !w.booted)))
  }

  class Gauge {
    const tipNM: int
    var acc: nat
    var tips: int
    var lastTxStep: int
    var lastTxTips: int
    var nextWake: int
    var booted: bool

    constructor (tipNM: int, phase: int)
      ensures this.tipNM == tipNM && Contents() == Booting(phase)
    {
      this.tipNM := tipNM;
      acc, tips, lastTxStep, lastTxTips, nextWake, booted := 0, 0, 0, 0, phase, false;
    }

    function Contents(): Node
      reads this
    {
      Node(acc, tips, lastTxStep, lastTxTips, nextWake, booted)
    }

    /** One second: rain falls in, and at a wake an uplink may go out. */
    method Step(step: int, fallen: nat) returns (out: Sent)
      requires tipNM > 0
      modifies this
      ensures (Contents(), out) == StepNode(old(Contents()), tipNM, step, fallen)
    {
      acc := acc + fallen;
      var n := DivNat(acc, tipNM);
      if n > 0 {
        tips := (tips + n) % WRAP;
        acc := Left(acc, n, tipNM);
      }
      if step < nextWake { return Nothing; }
      nextWake := nextWake + WAKE;
      if booted && tips == lastTxTips && step - lastTxStep < DRY_INTERVAL { return Nothing; }
      var interval := step - lastTxStep;
      if interval > 65535 { interval := 65535; }
      out := Sent(Report(step, tips, interval, !booted));
      booted, lastTxStep, lastTxTips := true, step, tips;
    }
  }

  function Booting(phase: int): Node { Node(0, 0, 0, 0, phase, false) }

  /** The node after one second per element of `rain`. */
  function Run(tipNM: int, phase: int, rain: seq<nat>): Node
    requires tipNM > 0
  {
    if rain == [] then Booting(phase) else
    var k := |rain| - 1;
    StepNode(Run(tipNM, phase, rain[..k]), tipNM, k, rain[k]).0
  }

  function Reports(tipNM: int, phase: int, rain: seq<nat>): seq<Report>
    requires tipNM > 0
  {
    if rain == [] then [] else
    var k := |rain| - 1;
    var s := StepNode(Run(tipNM, phase, rain[..k]), tipNM, k, rain[k]).1;
    Reports(tipNM, phase, rain[..k]) + (if s.Sent? then [s.report] else [])
  }

  // ----- the counter follows the rain ------------------------------------------------------------------------

  function Total(rain: seq<nat>): nat { if rain == [] then 0 else Total(rain[..|rain| - 1]) + rain[|rain| - 1] }

  /** Tips counted by the end of step `k - 1`. */
  function TipsAt(tipNM: int, rain: seq<nat>, k: nat): nat
    requires tipNM > 0 && k <= |rain|
  {
    DivNat(Total(rain[..k]), tipNM)
  }

  /** What the 32-bit counter shows of them. */
  function CounterAt(tipNM: int, rain: seq<nat>, k: nat): nat
    requires tipNM > 0 && k <= |rain|
  {
    TipsAt(tipNM, rain, k) % WRAP
  }

  function DivNat(a: nat, b: int): (q: nat)
    requires b > 0
    ensures q * b <= a < q * b + b
  {
    a / b
  }

  lemma DivUnique(a: nat, b: int, q: nat)
    requires b > 0 && q * b <= a < q * b + b
    ensures DivNat(a, b) == q
  {
    hide DivNat;
    var p := DivNat(a, b);
    if p < q { Below(p, q, b); }
    if p > q { Below(q, p, b); }
  }

  lemma Below(p: int, q: int, b: int)
    requires p < q && b > 0
    ensures p * b + b <= q * b
  {
    assert (q - p - 1) * b >= 0;
    assert q * b == p * b + b + (q - p - 1) * b;
  }

  lemma DivGrows(a: nat, c: nat, b: int)
    requires b > 0 && a <= c
    ensures DivNat(a, b) <= DivNat(c, b)
  {
    hide DivNat;
    var p, q := DivNat(a, b), DivNat(c, b);
    if p > q { Below(q, p, b); }
  }

  lemma {:induction false} TotalGrows(rain: seq<nat>, j: nat, k: nat)
    requires j <= k <= |rain|
    ensures Total(rain[..j]) <= Total(rain[..k])
    decreases k
  {
    if j < k {
      TotalGrows(rain, j, k - 1);
      assert rain[..k][..k - 1] == rain[..k - 1];
    }
  }

  lemma TipsGrow(tipNM: int, rain: seq<nat>, j: nat, k: nat)
    requires tipNM > 0 && j <= k <= |rain|
    ensures TipsAt(tipNM, rain, j) <= TipsAt(tipNM, rain, k)
  {
    TotalGrows(rain, j, k);
    DivGrows(Total(rain[..j]), Total(rain[..k]), tipNM);
  }

  /** All rain has tipped or is still in the bucket, and the counter shows the tips up to its wrap-around. */
  ghost predicate Counted(tipNM: int, total: nat, n: Node)
    requires tipNM > 0
  {
    n.tips == DivNat(total, tipNM) % WRAP && DivNat(total, tipNM) * tipNM + n.acc == total
  }

  lemma FillCounts(tipNM: int, total: nat, n: Node, fallen: nat)
    requires tipNM > 0 && Counted(tipNM, total, n)
    ensures Counted(tipNM, total + fallen, Fill(n, tipNM, fallen))
  {
    hide DivNat, Left;
    var t, q := DivNat(total, tipNM), DivNat(n.acc + fallen, tipNM);
    AddTimes(t, q, tipNM);
    DivUnique(total + fallen, tipNM, t + q);
    Wraps(t, q);
  }

  lemma Wraps(a: nat, b: nat)
    ensures (a % WRAP + b) % WRAP == (a + b) % WRAP
  {
  }

  lemma AddTimes(a: int, b: int, m: int)
    ensures (a + b) * m == a * m + b * m
  {
  }

  /** What the node knows after each second: the counter, the next wake, and that it slept through no tip
      it has not reported, as of its last wake. */
  ghost predicate Knows(tipNM: int, phase: int, rain: seq<nat>, n: Node)
    requires tipNM > 0
  {
    && Counted(tipNM, Total(rain), n) && n.nextWake >= |rain|
    && (!n.booted ==> n.nextWake == phase && n.lastTxStep == 0)
    && (n.booted ==> Awake(tipNM, rain, n))
  }

  ghost predicate Awake(tipNM: int, rain: seq<nat>, n: Node)
    requires tipNM > 0
  {
    && 0 <= n.lastTxStep <= n.nextWake - WAKE < |rain| && n.nextWake - n.lastTxStep <= DRY_INTERVAL
       && (n.nextWake - n.lastTxStep) % WAKE == 0
    && n.lastTxTips == CounterAt(tipNM, rain, n.lastTxStep + 1) == CounterAt(tipNM, rain, n.nextWake - WAKE + 1)
  }

  lemma TipsPrefix(tipNM: int, rain: seq<nat>, j: nat, k: nat)
    requires tipNM > 0 && k <= j <= |rain|
    ensures TipsAt(tipNM, rain[..j], k) == TipsAt(tipNM, rain, k)
  {
    assert rain[..j][..k] == rain[..k];
  }

  lemma StepKnows(tipNM: int, phase: int, rain: seq<nat>, fallen: nat, n: Node)
    requires tipNM > 0 && 0 < phase < WAKE && Knows(tipNM, phase, rain, n)
    ensures Knows(tipNM, phase, rain + [fallen], StepNode(n, tipNM, |rain|, fallen).0)
    ensures StepNode(n, tipNM, |rain|, fallen).1.Sent? ==>
              Truthful(tipNM, phase, rain + [fallen], n, StepNode(n, tipNM, |rain|, fallen).1.report)
  {
    hide Knows, Truthful, Filled, Fill;
    FillKnows(tipNM, phase, rain, fallen, n);
    var f := Fill(n, tipNM, fallen);
    FillSame(n, tipNM, fallen);
    if |rain| < f.nextWake {
      Asleep(tipNM, phase, rain + [fallen], f);
    } else if StaysQuiet(f, |rain|) {
      Quiet(tipNM, phase, rain + [fallen], f);
    } else {
      Sends(tipNM, phase, rain + [fallen], f);
      TruthfulFill(tipNM, phase, rain + [fallen], f, n);
    }
  }

  lemma FillSame(n: Node, tipNM: int, fallen: nat)
    requires tipNM > 0
    ensures var f := Fill(n, tipNM, fallen);
            f.booted == n.booted && f.lastTxStep == n.lastTxStep && f.lastTxTips == n.lastTxTips
              && f.nextWake == n.nextWake
  {
  }

  /** The node between the bucket and the wake test. */
  ghost predicate Filled(tipNM: int, phase: int, rain: seq<nat>, f: Node)
    requires tipNM > 0 && rain != []
  {
    && Counted(tipNM, Total(rain), f) && f.tips == CounterAt(tipNM, rain, |rain|) && f.nextWake >= |rain| - 1
    && (!f.booted ==> f.nextWake == phase && f.lastTxStep == 0)
    && (f.booted ==>
          && 0 <= f.lastTxStep <= f.nextWake - WAKE < |rain| - 1
          && f.nextWake - f.lastTxStep <= DRY_INTERVAL && (f.nextWake - f.lastTxStep) % WAKE == 0
          && f.lastTxTips == CounterAt(tipNM, rain, f.lastTxStep + 1) == CounterAt(tipNM, rain, f.nextWake - WAKE + 1))
  }

  lemma FillKnows(tipNM: int, phase: int, rain: seq<nat>, fallen: nat, n: Node)
    requires tipNM > 0 && Knows(tipNM, phase, rain, n)
    ensures Filled(tipNM, phase, rain + [fallen], Fill(n, tipNM, fallen))
  {
    var all, k := rain + [fallen], |rain|;
    assert all[..k] == rain && all[..k + 1] == all;
    FillCounts(tipNM, Total(rain), n, fallen);
    var f := Fill(n, tipNM, fallen);
    if n.booted {
      TipsPrefix(tipNM, all, k, n.lastTxStep + 1);
      TipsPrefix(tipNM, all, k, n.nextWake - WAKE + 1);
    }
    hide DivNat, Total;
  }

  lemma Asleep(tipNM: int, phase: int, rain: seq<nat>, f: Node)
    requires tipNM > 0 && rain != [] && Filled(tipNM, phase, rain, f) && |rain| - 1 < f.nextWake
    ensures Knows(tipNM, phase, rain, f)
  {
    hide CounterAt, Counted;
  }

  lemma Quiet(tipNM: int, phase: int, rain: seq<nat>, f: Node)
    requires tipNM > 0 && rain != [] && Filled(tipNM, phase, rain, f) && |rain| - 1 >= f.nextWake
             && StaysQuiet(f, |rain| - 1)
    ensures Knows(tipNM, phase, rain, f.(nextWake := f.nextWake + WAKE))
  {
    hide CounterAt;
  }

  lemma Sends(tipNM: int, phase: int, rain: seq<nat>, f: Node)
    requires tipNM > 0 && 0 < phase < WAKE && rain != [] && Filled(tipNM, phase, rain, f) && |rain| - 1 >= f.nextWake
    requires !StaysQuiet(f, |rain| - 1)
    ensures var step := |rain| - 1;
            && Knows(tipNM, phase, rain,
                     f.(nextWake := f.nextWake + WAKE, booted := true, lastTxStep := step, lastTxTips := f.tips))
            && step - f.lastTxStep < 65535
            && Truthful(tipNM, phase, rain, f, Report(step, f.tips, step - f.lastTxStep, !f.booted))
  {
    hide CounterAt;
  }

  lemma TruthfulFill(tipNM: int, phase: int, rain: seq<nat>, f: Node, n: Node)
    requires tipNM > 0 && rain != [] && f.booted == n.booted && f.lastTxStep == n.lastTxStep
             && f.lastTxTips == n.lastTxTips
    ensures forall r :: Truthful(tipNM, phase, rain, f, r) <==> Truthful(tipNM, phase, rain, n, r)
  {
    hide CounterAt;
  }

  /** A report comes at a wake, within fifteen minutes, and before that only with a new count. */
  predicate Prompt(lastTips: int, r: Report) {
    r.interval % WAKE == 0 && WAKE <= r.interval <= DRY_INTERVAL && (r.tips == lastTips ==> r.interval == DRY_INTERVAL)
  }

  /** A report gives the counter; its interval reaches back to the last one (or to boot), one to three wake periods,
      and three unless the counter is new; and if it is longer than a wake period, the counter at the wake before was
      the one last reported. */
  ghost predicate Truthful(tipNM: int, phase: int, rain: seq<nat>, before: Node, r: Report)
    requires tipNM > 0 && rain != []
  {
    && r.step == |rain| - 1 && r.tips == CounterAt(tipNM, rain, |rain|) && r.reset == !before.booted
    && r.interval == r.step - before.lastTxStep
    && (before.booted ==>
        0 <= before.lastTxStep < r.step && before.lastTxTips == CounterAt(tipNM, rain, before.lastTxStep + 1))
    && (before.booted ==> Prompt(before.lastTxTips, r))
    && (before.booted && r.interval > WAKE ==> CounterAt(tipNM, rain, r.step - WAKE + 1) == before.lastTxTips)
    && (!before.booted ==> r.step == phase)
  }
}
