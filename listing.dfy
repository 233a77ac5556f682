/**
 * The loop every script ends with: `for key in ssh_keys:` decides for each
 * item in turn whether to print a line, print nothing or raise, and an
 * exception ends the loop (and the run) with the lines printed so far
 * already on standard output.
 */
module Listing {
  import opened Wrappers
  import opened Outcomes

  /** What the loop body does with one item. */
  datatype Decision = Emit(line: string) | Skip | Fail(error: PyError)

  /** The lines the loop printed, and the exception that ended it early. */
  datatype Listing = Listing(lines: seq<string>, error: Option<PyError>)

  /** One more pass of the loop body after a pass that did not raise. */
  function Then(l: Listing, d: Decision): Listing {
    match d
    case Emit(t) => Listing(l.lines + [t], None)
    case Skip => l
    case Fail(e) => Listing(l.lines, Some(e))
  }

  /** The loop's state after the items, step by step: each pass extends
      the state the earlier passes left, and nothing runs after a raise. */
  function Emitted<T>(decide: T -> Decision, items: seq<T>): Listing
    decreases |items|
  {
    if items == [] then Listing([], None)
    else
      var before := Emitted(decide, items[..|items| - 1]);
      if before.error.Some? then before else Then(before, decide(items[|items| - 1]))
  }

  /** The same output read from the front: the first item's line comes
      first, and a raise drops every later item. */
  function Printed<T>(decide: T -> Decision, items: seq<T>): Listing
    decreases |items|
  {
    if items == [] then Listing([], None)
    else
      match decide(items[0])
      case Fail(e) => Listing([], Some(e))
      case Skip => Printed(decide, items[1..])
      case Emit(t) =>
        var rest := Printed(decide, items[1..]);
        Listing([t] + rest.lines, rest.error)
  }

  /** Once the loop has raised, later items change nothing. */
  lemma {:induction false} RaiseSticks<T>(decide: T -> Decision, items: seq<T>, i: nat)
    requires i <= |items| && Emitted(decide, items[..i]).error.Some?
    ensures Emitted(decide, items) == Emitted(decide, items[..i])
    decreases |items|
  {
    if i < |items| {
      var init := items[..|items| - 1];
      assert init[..i] == items[..i];
      RaiseSticks(decide, init, i);
    } else {
      assert items[..i] == items;
    }
  }

  /** Running the loop on one more item at the front. */
  lemma {:induction false} EmittedCons<T>(decide: T -> Decision, x: T, rest: seq<T>)
    ensures Emitted(decide, [x] + rest) ==
      match decide(x)
      case Fail(e) => Listing([], Some(e))
      case Skip => Emitted(decide, rest)
      case Emit(t) => Listing([t] + Emitted(decide, rest).lines, Emitted(decide, rest).error)
    decreases |rest|
  {
    var s := [x] + rest;
    if rest == [] {
      assert s[..0] == [];
    } else {
      var init := rest[..|rest| - 1];
      assert s[..|s| - 1] == [x] + init;
      assert s[|s| - 1] == rest[|rest| - 1];
      EmittedCons(decide, x, init);
    }
  }

  /** The step-by-step loop and the front-first reading agree. */
  lemma {:induction false} EmittedIsPrinted<T>(decide: T -> Decision, items: seq<T>)
    ensures Emitted(decide, items) == Printed(decide, items)
    decreases |items|
  {
    if items != [] {
      EmittedCons(decide, items[0], items[1..]);
      assert items == [items[0]] + items[1..];
      EmittedIsPrinted(decide, items[1..]);
    }
  }

  /** The loop as the script runs it. */
  method EmitAll<T>(decide: T -> Decision, items: seq<T>) returns (l: Listing)
    ensures l == Emitted(decide, items)
  {
    l := Listing([], None);
    var i := 0;
    while i < |items| && l.error.None?
      invariant 0 <= i <= |items|
      invariant l == Emitted(decide, items[..i])
    {
      assert items[..i + 1][..i] == items[..i];
      l := Then(l, decide(items[i]));
      i := i + 1;
    }
    if i < |items| {
      RaiseSticks(decide, items, i);
    } else {
      assert items[..i] == items;
    }
  }

  /** When every item prints, there is exactly one line per item, in item
      order, and the loop ends normally. */
  lemma {:induction false} AllPrinted<T>(decide: T -> Decision, items: seq<T>)
    requires forall i :: 0 <= i < |items| ==> decide(items[i]).Emit?
    ensures Emitted(decide, items).error == None
    ensures |Emitted(decide, items).lines| == |items|
    ensures forall i :: 0 <= i < |items| ==> Emitted(decide, items).lines[i] == decide(items[i]).line
    decreases |items|
  {
    if items != [] {
      var init := items[..|items| - 1];
      AllPrinted(decide, init);
    }
  }

  /** When no item prints or raises, nothing is printed. */
  lemma {:induction false} NonePrinted<T>(decide: T -> Decision, items: seq<T>)
    requires forall i :: 0 <= i < |items| ==> decide(items[i]).Skip?
    ensures Emitted(decide, items) == Listing([], None)
    decreases |items|
  {
    if items != [] {
      NonePrinted(decide, items[..|items| - 1]);
    }
  }

  /** Output order follows input order: running over a then b prints a's
      lines and then b's, unless a already raised. */
  lemma {:induction false} EmittedAppend<T>(decide: T -> Decision, a: seq<T>, b: seq<T>)
    ensures var la := Emitted(decide, a);
      Emitted(decide, a + b) ==
        if la.error.Some? then la
        else Listing(la.lines + Emitted(decide, b).lines, Emitted(decide, b).error)
    decreases |a|
  {
    if a == [] {
      assert a + b == b;
    } else {
      EmittedCons(decide, a[0], a[1..] + b);
      assert a + b == [a[0]] + (a[1..] + b);
      EmittedCons(decide, a[0], a[1..]);
      assert a == [a[0]] + a[1..];
      EmittedAppend(decide, a[1..], b);
    }
  }

  /** The first item that raises ends the run with its exception; the
      lines of the items before it stay printed. */
  lemma FirstRaise<T>(decide: T -> Decision, items: seq<T>, j: nat)
    requires j < |items| && decide(items[j]).Fail?
    requires forall i :: 0 <= i < j ==> !decide(items[i]).Fail?
    ensures Emitted(decide, items).error == Some(decide(items[j]).error)
    ensures Emitted(decide, items).lines == Emitted(decide, items[..j]).lines
  {
    NoRaiseBefore(decide, items[..j]);
    assert items[..j + 1][..j] == items[..j];
    RaiseSticks(decide, items, j + 1);
  }

  /** Items that never raise leave a loop that ends normally. */
  lemma {:induction false} NoRaiseBefore<T>(decide: T -> Decision, items: seq<T>)
    requires forall i :: 0 <= i < |items| ==> !decide(items[i]).Fail?
    ensures Emitted(decide, items).error == None
    decreases |items|
  {
    if items != [] {
      NoRaiseBefore(decide, items[..|items| - 1]);
    }
  }
}
