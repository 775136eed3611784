/**
 * The argument loop both command-line scripts share in shape: a `switch`
 * over `args[i]` in which every recognised flag takes `args[++i]` as its
 * value, and anything else stops the program. `step` is one script's
 * `switch`: the options after one flag, or why the program stops.
 */
module ArgScan {
  import opened Wrappers

  /** `args[j]`, `undefined` past the end. */
  function ArgAt(args: seq<string>, j: nat): (v: Option<string>)
    ensures v.Some? <==> j < |args|
    ensures v.Some? ==> v.value == args[j]
  {
    if j < |args| then Some(args[j]) else None
  }

  /** JavaScript truthiness of a string or `undefined`. */
  predicate Truthy(v: Option<string>) {
    v.Some? && v.value != ""
  }

  /** The parsing loop from position `i`: each flag consumes itself and the argument after it. */
  function Scan<O, E>(args: seq<string>, i: nat, opts: O, step: (O, string, Option<string>) -> Result<O, E>)
    : Result<O, E>
    decreases |args| - i
  {
    if i >= |args| then Success(opts)
    else
      match step(opts, args[i], ArgAt(args, i + 1))
      case Failure(e) => Failure(e)
      case Success(next) => Scan(args, i + 2, next, step)
  }

  /** Arguments that are flag-value pairs from position `i` on. */
  predicate Pairs(args: seq<string>, i: nat, flags: seq<string>) {
    i <= |args| && (|args| - i) % 2 == 0
    && forall k :: i <= k < |args| && (k - i) % 2 == 0 ==> args[k] in flags
  }

  /** Every flag with a value present is accepted by `step`. */
  ghost predicate AcceptsFlags<O(!new), E>(step: (O, string, Option<string>) -> Result<O, E>, flags: seq<string>) {
    forall opts, flag, value :: flag in flags ==> step(opts, flag, Some(value)).Success?
  }

  /** Complete flag-value pairs are read through, and scanning goes on after them as from a fresh start. */
  lemma {:induction false} ScanPairs<O(!new), E>(args: seq<string>, more: seq<string>, i: nat, opts: O,
                                           step: (O, string, Option<string>) -> Result<O, E>, flags: seq<string>)
    requires Pairs(args, i, flags) && AcceptsFlags(step, flags)
    ensures Scan(args, i, opts, step).Success?
    ensures Scan(args + more, i, opts, step) == Scan(more, 0, Scan(args, i, opts, step).value, step)
    decreases |args| - i
  {
    var all := args + more;
    if i == |args| {
      ScanShift(args, more, 0, opts, step);
    } else {
      assert all[i] == args[i] && args[i] in flags;
      assert i + 1 < |args|;
      assert ArgAt(all, i + 1) == ArgAt(args, i + 1) == Some(args[i + 1]);
      assert step(opts, args[i], Some(args[i + 1])).Success?;
      var next := step(opts, args[i], Some(args[i + 1])).value;
      assert Pairs(args, i + 2, flags) by {
        forall k | i + 2 <= k < |args| && (k - (i + 2)) % 2 == 0 ensures args[k] in flags {
          assert (k - i) % 2 == 0;
        }
      }
      ScanPairs(args, more, i + 2, next, step, flags);
    }
  }

  /**
   * An argument in flag position that every step rejects stops the scan there,
   * with that step's failure, whatever follows it.
   */
  lemma UnknownArgumentStops<O(!new), E>(args: seq<string>, arg: string, rest: seq<string>, opts: O,
                                         step: (O, string, Option<string>) -> Result<O, E>, flags: seq<string>)
    requires Pairs(args, 0, flags) && AcceptsFlags(step, flags)
    requires forall o, v :: step(o, arg, v).Failure?
    ensures Scan(args, 0, opts, step).Success?
    ensures Scan(args + ([arg] + rest), 0, opts, step)
      == step(Scan(args, 0, opts, step).value, arg, ArgAt([arg] + rest, 1))
  {
    ScanPairs(args, [arg] + rest, 0, opts, step, flags);
  }

  /** Scanning `more` after a prefix of length `|prefix|` is scanning `more` alone. */
  lemma {:induction false} ScanShift<O(!new), E>(prefix: seq<string>, more: seq<string>, j: nat, opts: O,
                                           step: (O, string, Option<string>) -> Result<O, E>)
    ensures Scan(prefix + more, |prefix| + j, opts, step) == Scan(more, j, opts, step)
    decreases |more| - j
  {
    var all := prefix + more;
    if j < |more| {
      assert all[|prefix| + j] == more[j];
      assert ArgAt(all, |prefix| + j + 1) == ArgAt(more, j + 1);
      match step(opts, more[j], ArgAt(more, j + 1))
      case Failure(_) =>
      case Success(next) => ScanShift(prefix, more, j + 2, next, step);
    }
  }

  /** A step that keeps some part of the options keeps it over a whole scan. */
  lemma {:induction false} ScanKeeps<O(!new), E, P>(args: seq<string>, i: nat, opts: O,
                                              step: (O, string, Option<string>) -> Result<O, E>,
                                              part: O -> P, flag: string)
    requires forall o, f, v :: f != flag && step(o, f, v).Success? ==> part(step(o, f, v).value) == part(o)
    requires forall k :: i <= k < |args| ==> args[k] != flag
    ensures Scan(args, i, opts, step).Success? ==> part(Scan(args, i, opts, step).value) == part(opts)
    decreases |args| - i
  {
    if i < |args| {
      match step(opts, args[i], ArgAt(args, i + 1))
      case Failure(_) =>
      case Success(next) => ScanKeeps(args, i + 2, next, step, part, flag);
    }
  }
}
