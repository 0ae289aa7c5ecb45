/** Failure-carrying values shared by every module of the model: Python's exceptions
    become an `Error`, a raising call a `Result`, and a generator that may raise
    part-way a `Yielded` (what it yielded before stopping, and why it stopped). */
module Wrappers {

  datatype Option<+T> = None | Some(value: T)

  /** The Python exception kinds the modelled code raises or lets escape. */
  datatype Error =
    | ValueError
    | KeyError
    | TypeError
    | IndexError
    | NameError
    | StopIteration
    | FileNotFound(name: string)
    | PermanentFtpError(message: string)
    | ArgumentError
    | AttributeError

  datatype Result<+T> = Ok(value: T) | Err(error: Error) {
    predicate IsFailure() { Err? }
    function PropagateFailure<U>(): Result<U>
      requires Err?
    {
      Err(error)
    }
    function Extract(): T
      requires Ok?
    {
      value
    }
  }

  /** The items a generator produced, and the exception that ended it (None when it ran out). */
  datatype Yielded<+T> = Yielded(items: seq<T>, stop: Option<Error>)

  /** A generator that, for each x of xs in turn, yields what step(x) gives and stops at the
      first x whose step raises. */
  function Until<T, U>(xs: seq<T>, step: T -> Result<U>): Yielded<U>
  {
    if xs == [] then Yielded([], None)
    else
      var y := step(xs[0]);
      if y.Err? then Yielded([], Some(y.error))
      else
        var rest := Until(xs[1..], step);
        Yielded([y.value] + rest.items, rest.stop)
  }

  /** The items are the steps of the leading elements, in order; the generator runs out only
      after the last element, and otherwise stops with the error of the first failing step. */
  lemma {:induction false} UntilSpec<T, U>(xs: seq<T>, step: T -> Result<U>)
    ensures var r := Until(xs, step);
      |r.items| <= |xs| &&
      (forall i :: 0 <= i < |r.items| ==> step(xs[i]) == Ok(r.items[i])) &&
      (r.stop.None? <==> |r.items| == |xs|) &&
      (r.stop.Some? ==> |r.items| < |xs| && step(xs[|r.items|]) == Err(r.stop.value))
    decreases |xs|
  {
    if xs != [] {
      UntilSpec(xs[1..], step);
      var r := Until(xs, step);
      var rest := Until(xs[1..], step);
      if r.items != [] {
        assert r.items == [r.items[0]] + rest.items;
        forall i | 1 <= i < |r.items|
          ensures step(xs[i]) == Ok(r.items[i])
        {
          assert r.items[i] == rest.items[i - 1] && xs[i] == xs[1..][i - 1];
        }
        if r.stop.Some? {
          assert xs[|r.items|] == xs[1..][|rest.items|];
        }
      }
    }
  }

  /** `d[k]` on a dict: the value, or KeyError. */
  function Get<K, V>(d: map<K, V>, k: K): (r: Result<V>)
    ensures r.Ok? <==> k in d
    ensures r.Ok? ==> r.value == d[k]
    ensures r.Err? ==> r.error == KeyError
  {
    if k in d then Ok(d[k]) else Err(KeyError)
  }

  /** A generator that, for each x of xs in turn, yields what step(x) gives when it gives
      something, skips x when it gives nothing, and stops at the first x whose step raises. */
  function Collect<T, U>(xs: seq<T>, step: T -> Result<Option<U>>): Yielded<U>
  {
    if xs == [] then Yielded([], None)
    else
      var y := step(xs[0]);
      if y.Err? then Yielded([], Some(y.error))
      else
        var rest := Collect(xs[1..], step);
        if y.value.Some? then Yielded([y.value.value] + rest.items, rest.stop) else rest
  }

  /** Every item is what the step gives for some element; the generator runs out only when
      no step raises, and otherwise stops with the error of the first step that does. */
  lemma {:induction false} CollectSpec<T, U>(xs: seq<T>, step: T -> Result<Option<U>>)
    ensures var r := Collect(xs, step);
      |r.items| <= |xs| &&
      (forall k :: 0 <= k < |r.items| ==> exists i :: 0 <= i < |xs| && step(xs[i]) == Ok(Some(r.items[k]))) &&
      (r.stop.None? <==> forall i :: 0 <= i < |xs| ==> step(xs[i]).Ok?) &&
      (r.stop.Some? ==>
         exists i :: 0 <= i < |xs| && step(xs[i]) == Err(r.stop.value) &&
           forall j :: 0 <= j < i ==> step(xs[j]).Ok?)
    decreases |xs|
  {
    if xs != [] {
      CollectSpec(xs[1..], step);
      var r := Collect(xs, step);
      var rest := Collect(xs[1..], step);
      var y := step(xs[0]);
      if y.Ok? {
        forall k | 0 <= k < |r.items|
          ensures exists i :: 0 <= i < |xs| && step(xs[i]) == Ok(Some(r.items[k]))
        {
          if y.value.Some? && k == 0 {
            assert step(xs[0]) == Ok(Some(r.items[k]));
          } else {
            var k' := if y.value.Some? then k - 1 else k;
            assert r.items[k] == rest.items[k'];
            var i :| 0 <= i < |xs[1..]| && step(xs[1..][i]) == Ok(Some(rest.items[k']));
            assert step(xs[i + 1]) == Ok(Some(r.items[k]));
          }
        }
        if rest.stop.None? {
          forall i | 0 <= i < |xs|
            ensures step(xs[i]).Ok?
          {
            if i > 0 { assert xs[i] == xs[1..][i - 1]; }
          }
        } else {
          assert !step(xs[1..][0]).Ok? || exists i :: 0 <= i < |xs[1..]| && !step(xs[1..][i]).Ok?;
          var i :| 0 <= i < |xs[1..]| && step(xs[1..][i]) == Err(rest.stop.value) &&
            forall j :: 0 <= j < i ==> step(xs[1..][j]).Ok?;
          assert step(xs[i + 1]) == Err(r.stop.value);
          forall j | 0 <= j < i + 1
            ensures step(xs[j]).Ok?
          {
            if j > 0 { assert xs[j] == xs[1..][j - 1]; }
          }
          assert !step(xs[i + 1]).Ok?;
        }
      } else {
        assert step(xs[0]) == Err(r.stop.value);
      }
    }
  }

  /** Running over xs + ys is running over xs and, unless that stopped, then over ys. */
  lemma {:induction false} CollectAppend<T, U>(xs: seq<T>, ys: seq<T>, step: T -> Result<Option<U>>)
    ensures var a := Collect(xs, step);
      Collect(xs + ys, step) ==
        if a.stop.Some? then a
        else var b := Collect(ys, step); Yielded(a.items + b.items, b.stop)
    decreases |xs|
  {
    if xs == [] {
      assert xs + ys == ys;
    } else {
      assert (xs + ys)[0] == xs[0];
      assert (xs + ys)[1..] == xs[1..] + ys;
      CollectAppend(xs[1..], ys, step);
      var y := step(xs[0]);
      if y.Ok? && y.value.Some? {
        var a', b := Collect(xs[1..], step), Collect(ys, step);
        if a'.stop.None? {
          assert [y.value.value] + (a'.items + b.items) == ([y.value.value] + a'.items) + b.items;
        }
      }
    }
  }

  /** When the generator runs out, everything a step gives is among the items. */
  lemma {:induction false} CollectKeeps<T, U>(xs: seq<T>, step: T -> Result<Option<U>>, i: int, u: U)
    requires 0 <= i < |xs| && step(xs[i]) == Ok(Some(u))
    requires Collect(xs, step).stop.None?
    ensures u in Collect(xs, step).items
    decreases |xs|
  {
    if i > 0 {
      assert xs[i] == xs[1..][i - 1];
      CollectKeeps(xs[1..], step, i - 1, u);
    }
  }

  /** One more step of a generator loop that has got through xs[..i] without raising. */
  lemma CollectStep<T, U>(xs: seq<T>, i: int, step: T -> Result<Option<U>>, items: seq<U>)
    requires 0 <= i < |xs|
    requires Collect(xs[..i], step) == Yielded(items, None)
    ensures var y := step(xs[i]);
      (y.Err? ==> Collect(xs, step) == Yielded(items, Some(y.error))) &&
      (y.Ok? ==>
         Collect(xs[..i + 1], step) == Yielded(items + (if y.value.Some? then [y.value.value] else []), None))
  {
    CollectAppend(xs[..i], [xs[i]], step);
    assert xs[..i + 1] == xs[..i] + [xs[i]];
    if step(xs[i]).Err? {
      CollectAppend(xs[..i], xs[i..], step);
      assert xs[..i] + xs[i..] == xs;
      assert xs[i..][0] == xs[i];
    } else if step(xs[i]).value.None? {
      assert items + [] == items;
    }
  }

  /** `total += step(x)` for each x of xs in turn, raising with the first step that raises. */
  function Concat<T, U>(xs: seq<T>, step: T -> Result<seq<U>>): Result<seq<U>>
    decreases |xs|
  {
    if xs == [] then Ok([])
    else
      var before :- Concat(xs[..|xs| - 1], step);
      var last :- step(xs[|xs| - 1]);
      Ok(before + last)
  }

  /** Once a prefix raises, the whole run raises with the same error. */
  lemma {:induction false} ConcatPrefixErr<T, U>(xs: seq<T>, j: int, step: T -> Result<seq<U>>)
    requires 0 <= j <= |xs|
    requires Concat(xs[..j], step).Err?
    ensures Concat(xs, step) == Concat(xs[..j], step)
    decreases |xs| - j
  {
    if j == |xs| {
      assert xs[..j] == xs;
    } else {
      var init := xs[..|xs| - 1];
      assert init[..j] == xs[..j];
      ConcatPrefixErr(init, j, step);
    }
  }

  /** One more pass of an accumulating loop that has got through xs[..i] without raising. */
  lemma ConcatStep<T, U>(xs: seq<T>, i: int, step: T -> Result<seq<U>>, total: seq<U>)
    requires 0 <= i < |xs|
    requires Concat(xs[..i], step) == Ok(total)
    ensures var y := step(xs[i]);
      (y.Err? ==> Concat(xs, step) == Err(y.error)) &&
      (y.Ok? ==> Concat(xs[..i + 1], step) == Ok(total + y.value))
  {
    var init := xs[..i + 1];
    assert init[..|init| - 1] == xs[..i];
    if step(xs[i]).Err? {
      ConcatPrefixErr(xs, i + 1, step);
    }
  }

  /** Everything accumulated comes from the step of some element. */
  lemma {:induction false} ConcatFrom<T, U>(xs: seq<T>, step: T -> Result<seq<U>>, u: U)
    requires Concat(xs, step).Ok? && u in Concat(xs, step).value
    ensures exists i :: 0 <= i < |xs| && step(xs[i]).Ok? && u in step(xs[i]).value
    decreases |xs|
  {
    var init := xs[..|xs| - 1];
    var last := step(xs[|xs| - 1]);
    if u in Concat(init, step).value {
      ConcatFrom(init, step, u);
      var i :| 0 <= i < |init| && step(init[i]).Ok? && u in step(init[i]).value;
      assert init[i] == xs[i];
    } else {
      assert step(xs[|xs| - 1]).Ok? && u in last.value;
    }
  }

  /** Accumulating over two runs one after the other: the first run's total, then the second's. */
  lemma {:induction false} ConcatAppend<T, U>(xs: seq<T>, ys: seq<T>, step: T -> Result<seq<U>>)
    requires Concat(xs, step).Ok? && Concat(ys, step).Ok?
    ensures Concat(xs + ys, step) == Ok(Concat(xs, step).value + Concat(ys, step).value)
    decreases |ys|
  {
    if ys == [] {
      assert xs + ys == xs;
      assert Concat(xs, step).value + [] == Concat(xs, step).value;
    } else {
      var init := ys[..|ys| - 1];
      assert (xs + ys)[..|xs + ys| - 1] == xs + init;
      assert (xs + ys)[|xs + ys| - 1] == ys[|ys| - 1];
      var a := Concat(xs, step).value;
      var b := Concat(init, step).value;
      var last := step(ys[|ys| - 1]).value;
      assert Concat(ys, step).value == b + last;
      ConcatAppend(xs, init, step);
      assert Concat(xs + ys, step) == Ok((a + b) + last);
      assert (a + b) + last == a + (b + last);
    }
  }
}
