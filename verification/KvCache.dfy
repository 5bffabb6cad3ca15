/** The linear key/value cache of export-pocket.py: a fixed buffer that refines a plain history. */
module KvCache {
  import opened Text

  /** Where the window starts: `context` positions before the first new one, or at the beginning. */
  function WindowStart(context: Option<nat>, offset: nat): (start: nat)
    ensures start <= offset
  {
    match context
    case None => 0
    case Some(n) => if offset >= n then offset - n else 0
  }

  /** The keys and values handed to attention, with their absolute positions. */
  datatype Window<T> = Window(entries: seq<T>, positions: seq<nat>)

  datatype Reply<T> = Attend(window: Window<T>, offset: nat) | OutOfRange

  /** A query looks at no later key, and at most `context` positions back. */
  predicate MayAttend(context: Option<nat>, query: nat, key: nat) {
    key <= query && (context.None? || query - key <= context.value)
  }

  /**
    * A window holds, under its own position, every entry of `all` that a query may look at: exactly
    * those from `context` positions before the offset on.
    */
  ghost predicate Serves<T(!new)>(w: Window<T>, all: seq<T>, context: Option<nat>, offset: nat) {
    && |w.positions| == |w.entries|
    && (forall i :: 0 <= i < |w.entries| ==> w.positions[i] < |all| && w.entries[i] == all[w.positions[i]])
    && (forall i, j :: 0 <= i < j < |w.entries| ==> w.positions[i] < w.positions[j])
    && (forall key: nat :: key in w.positions <==> key < |all| && (context.None? || offset <= key + context.value))
    && (forall query: nat, key: nat ::
          offset <= query < |all| && MayAttend(context, query, key) ==> key in w.positions)
  }

  class Cache<T(!new)> {
    const context: Option<nat>
    var cache: seq<T>
    var offset: nat

    /** The buffer begins with everything appended so far. */
    ghost predicate Holds(history: seq<T>)
      reads this
    {
      offset == |history| <= |cache| && cache[..offset] == history
    }

    /** The buffer also has the entries of an append that has not been counted yet. */
    ghost predicate Staged(history: seq<T>, entries: seq<T>)
      reads this
    {
      && offset == |history| && offset + |entries| <= |cache|
      && cache[..offset + |entries|] == history + entries
    }

    constructor (buffer: seq<T>, context: Option<nat>)
      ensures Holds([]) && cache == buffer && this.context == context
    {
      this.context, cache, offset := context, buffer, 0;
    }

    /** `scattered_append`: the offset itself does not move yet. */
    method Append(entries: seq<T>, ghost history: seq<T>) returns (r: Reply<T>)
      requires Holds(history)
      modifies this`cache
      ensures r.OutOfRange? <==> |history| + |entries| > |cache|
      ensures r.OutOfRange? ==> cache == old(cache)
      ensures r.Attend? ==>
        && |cache| == |old(cache)| && Staged(history, entries)
        && cache[offset + |entries|..] == old(cache)[offset + |entries|..]
        && r.offset == offset && Serves(r.window, history + entries, context, offset)
      ensures Holds(history)
    {
      var end := offset + |entries|;
      if end > |cache| {
        return OutOfRange;
      }
      hide Serves;
      cache := Scatter(cache, offset, entries);
      var start := WindowStart(context, offset);
      var positions := seq(end - start, i requires 0 <= i < end - start => start + i);
      var window := Window(cache[start..end], positions);
      assert cache[start..end] == cache[..end][start..];
      WindowServes(window, history + entries, context, offset, start);
      return Attend(window, offset);
    }

    /**
      * `functional_increment`: an append becomes part of the history exactly when it is counted in
      * full; a smaller count makes the history end that much earlier.
      */
    method Increment(n: nat, ghost history: seq<T>, ghost entries: seq<T>)
      modifies this`offset
      ensures offset == old(offset) + n
      ensures old(Staged(history, entries)) ==>
        && (Holds(history + entries) <==> n == |entries|)
        && (n <= |entries| ==> Holds((history + entries)[..|history| + n]))
    {
      offset := offset + n;
    }

    /** Any run of append-then-increment steps that fits keeps the buffer equal to the history. */
    method Run(batches: seq<seq<T>>) returns (windows: seq<Window<T>>)
      requires Holds([]) && |Flat(batches)| <= |cache|
      modifies this`cache, this`offset
      ensures Holds(Flat(batches)) && |cache| == |old(cache)|
      ensures |windows| == |batches|
      ensures forall i :: 0 <= i < |batches| ==>
        Serves(windows[i], Flat(batches[..i + 1]), context, |Flat(batches[..i])|)
    {
      hide Serves, Flat;
      windows := [];
      ghost var history: seq<T> := [];
      assert batches[..0] == [];
      FlatNothing<T>();
      for i := 0 to |batches|
        invariant Holds(history) && history == Flat(batches[..i]) && |cache| == |old(cache)| && |windows| == i
        invariant forall k :: 0 <= k < i ==>
          Serves(windows[k], Flat(batches[..k + 1]), context, |Flat(batches[..k])|)
      {
        assert batches[..i + 1] == batches[..i] + [batches[i]];
        FlatSnoc(batches[..i], batches[i]);
        FlatPrefix(batches, i + 1);
        var r := Append(batches[i], history);
        windows := windows + [r.window];
        Increment(|batches[i]|, history, batches[i]);
        history := history + batches[i];
      }
      assert batches[..|batches|] == batches;
    }
  }

  /** `cache.scatter(2, index, ...)` with the consecutive positions from `offset`. */
  function Scatter<T>(cache: seq<T>, offset: nat, entries: seq<T>): (r: seq<T>)
    requires offset + |entries| <= |cache|
    ensures |r| == |cache|
    ensures r[..offset + |entries|] == cache[..offset] + entries
    ensures r[offset + |entries|..] == cache[offset + |entries|..]
    ensures r[..offset] == cache[..offset]
  {
    cache[..offset] + entries + cache[offset + |entries|..]
  }

  lemma WindowServes<T(!new)>(w: Window<T>, all: seq<T>, context: Option<nat>, offset: nat, start: nat)
    requires start == WindowStart(context, offset) <= offset <= |all|
    requires w.entries == all[start..] && |w.positions| == |all| - start
    requires forall i :: 0 <= i < |w.positions| ==> w.positions[i] == start + i
    ensures Serves(w, all, context, offset)
  {
    forall key: nat
      ensures key in w.positions <==> key < |all| && (context.None? || offset <= key + context.value)
    {
      assert start <= key < |all| ==> w.positions[key - start] == key;
    }
    forall query: nat, key: nat | offset <= query < |all| && MayAttend(context, query, key)
      ensures key in w.positions
    {
      assert w.positions[key - start] == key;
    }
  }

  function Flat<T>(batches: seq<seq<T>>): seq<T> {
    if batches == [] then [] else Flat(batches[..|batches| - 1]) + batches[|batches| - 1]
  }

  lemma FlatNothing<T>()
    ensures Flat<T>([]) == []
  {
  }

  lemma FlatSnoc<T>(batches: seq<seq<T>>, b: seq<T>)
    ensures Flat(batches + [b]) == Flat(batches) + b
  {
    assert (batches + [b])[..|batches|] == batches;
  }

  lemma {:induction false} FlatPrefix<T>(batches: seq<seq<T>>, k: nat)
    requires k <= |batches|
    ensures |Flat(batches[..k])| <= |Flat(batches)|
    decreases |batches| - k
  {
    if k < |batches| {
      assert batches[..k + 1][..k] == batches[..k];
      FlatPrefix(batches, k + 1);
    } else {
      assert batches[..k] == batches;
    }
  }
}
