/** How long an expansion takes, whatever other operations run between the passes of the loop. */
module AssocRuns {
  import opened Items
  import opened Assoc

  /** What one lock hold does to the expansion: a find, delete or small insert; an insert that starts
      an expansion (or tries to); a pass of a maintenance loop that is running. */
  datatype Event = Other | Expand(callocOk: bool, threadOk: bool) | Migrate

  ghost predicate Step(c: Control, e: Event, c': Control) {
    match e
    case Other => c' == c
    case Expand(callocOk, threadOk) => !c.expanding && c' == c.AfterExpand(callocOk, threadOk)
    case Migrate => c.loops > 0 && c.Ok() && c.expanding && c' == c.Migrated()
  }

  ghost predicate Run(cs: seq<Control>, es: seq<Event>) {
    |cs| == |es| + 1 && cs[0].Ok() && forall i :: 0 <= i < |es| ==> Step(cs[i], es[i], cs[i + 1])
  }

  function Migrations(es: seq<Event>): nat {
    if es == [] then 0 else Migrations(es[..|es| - 1]) + if es[|es| - 1] == Migrate then 1 else 0
  }

  lemma {:induction false} RunOk(cs: seq<Control>, es: seq<Event>, j: nat)
    requires Run(cs, es) && j < |cs|
    ensures cs[j].Ok()
  {
    hide Pow2;
    if j > 0 {
      RunOk(cs, es, j - 1);
      assert Step(cs[j - 1], es[j - 1], cs[j]);
      Doubles(cs[j - 1].power + 1);
    }
  }

  /** At most one maintenance loop runs at any time, and one runs exactly during an expansion. */
  lemma {:induction false} OneLoop(cs: seq<Control>, es: seq<Event>, j: nat)
    requires Run(cs, es) && j < |cs|
    ensures cs[j].loops <= 1 && (cs[j].loops == 1 <==> cs[j].expanding)
  {
    RunOk(cs, es, j);
  }

  /** When the new table and the thread can be had, an attempt to expand starts an expansion: twice the
      buckets, none moved yet, and one loop. */
  lemma ExpansionStarts(cs: seq<Control>, es: seq<Event>, i: nat)
    requires Run(cs, es) && i < |es| && es[i] == Expand(true, true)
    ensures !cs[i].expanding && cs[i + 1] == Control(cs[i].power + 1, true, 0, 1)
  {
    RunOk(cs, es, i);
    assert Step(cs[i], es[i], cs[i + 1]);
  }

  /** When one of them cannot, the table stays as it is. */
  lemma ExpansionFails(cs: seq<Control>, es: seq<Event>, i: nat)
    requires Run(cs, es) && i < |es| && es[i].Expand? && !(es[i].callocOk && es[i].threadOk)
    ensures cs[i + 1].power == cs[i].power && !cs[i + 1].expanding && cs[i + 1].loops == 0
  {
    RunOk(cs, es, i);
    assert Step(cs[i], es[i], cs[i + 1]);
  }

  /** An expansion from 2^p buckets is still going on after fewer than 2^p passes ... */
  lemma {:induction false} MigrationGoesOn(cs: seq<Control>, es: seq<Event>, p: nat, j: nat)
    requires Run(cs, es) && cs[0] == Control(p + 1, true, 0, 1) && j <= |es|
    requires Migrations(es[..j]) < Pow2(p)
    ensures cs[j] == Control(p + 1, true, Migrations(es[..j]), 1)
  {
    if j > 0 {
      assert es[..j][..j - 1] == es[..j - 1];
      MigrationGoesOn(cs, es, p, j - 1);
      assert Step(cs[j - 1], es[j - 1], cs[j]);
    }
  }

  /** ... and is over at the end of the 2^p-th. */
  lemma {:induction false} MigrationEnds(cs: seq<Control>, es: seq<Event>, p: nat, j: nat)
    requires Run(cs, es) && cs[0] == Control(p + 1, true, 0, 1) && 0 < j <= |es|
    requires Migrations(es[..j]) == Pow2(p) && es[j - 1] == Migrate
    ensures cs[j] == Control(p + 1, false, Pow2(p), 0)
  {
    assert es[..j][..j - 1] == es[..j - 1];
    MigrationGoesOn(cs, es, p, j - 1);
    assert Step(cs[j - 1], es[j - 1], cs[j]);
  }

  /** From a table of 2^p buckets, an attempt that succeeds leads to one of 2^(p+1): the 2^p-th pass of the
      loop after it, whatever else goes on in between, ends the expansion, and no pass before does. */
  lemma TableDoubles(cs: seq<Control>, es: seq<Event>, i: nat, j: nat)
    requires Run(cs, es) && i < j <= |es| && es[i] == Expand(true, true) && es[j - 1] == Migrate
    ensures var p, passes := cs[i].power, Migrations(es[i + 1..j]);
      && (passes == Pow2(p) ==> cs[j].power == p + 1 && !cs[j].expanding && cs[j].loops == 0)
      && (passes < Pow2(p) ==> cs[j].power == p + 1 && cs[j].expanding && cs[j].expandBucket == passes)
  {
    hide Run, Step, Pow2, Migrations;
    ExpansionStarts(cs, es, i);
    Suffix(cs, es, i + 1);
    var n := j - (i + 1);
    assert es[i + 1..][..n] == es[i + 1..j];
    NoneYet(es, i, j, cs[i].power);
    if Migrations(es[i + 1..j]) == Pow2(cs[i].power) {
      MigrationEnds(cs[i + 1..], es[i + 1..], cs[i].power, n);
    } else if Migrations(es[i + 1..j]) < Pow2(cs[i].power) {
      MigrationGoesOn(cs[i + 1..], es[i + 1..], cs[i].power, n);
    }
  }

  lemma NoneYet(es: seq<Event>, i: nat, j: nat, p: nat)
    requires i < j <= |es|
    ensures i + 1 == j ==> Migrations(es[i + 1..j]) == 0 < Pow2(p)
  {
  }

  lemma Suffix(cs: seq<Control>, es: seq<Event>, i: nat)
    requires Run(cs, es) && i <= |es|
    ensures |cs| == |es| + 1 && Run(cs[i..], es[i..])
  {
    RunOk(cs, es, i);
    hide Step, Control.Ok;
    forall k | 0 <= k < |es[i..]| ensures Step(cs[i..][k], es[i..][k], cs[i..][k + 1]) {
      assert Step(cs[i + k], es[i + k], cs[i + k + 1]);
    }
  }
}
