/**
 The loop of `_MemoryParser._meminfo_parse` over the parser's private store.
 The store is created empty once and afterwards only receives `dict.update`
 calls, so every pass starts from whatever earlier passes left behind.

 The pass is defined over the sequence of per-line outcomes (`Outcomes`),
 which keeps the reasoning about the store apart from tokenising.
 */
module ParserStore {
  import opened Outcome
  import opened Meminfo

  /** Every outcome is an entry: no line raised. */
  predicate AllSucceed(rs: seq<Result<Entry, ParseError>>)
  {
    forall i :: 0 <= i < |rs| ==> rs[i].Success?
  }

  /** No line of `lines` raises. */
  predicate AllParse(lines: seq<string>)
  {
    AllSucceed(Outcomes(lines))
  }

  /**
   The loop applied to a store holding `store`: outcomes are applied in order,
   and the first error ends the pass with the earlier updates already made.
   */
  function Pass(store: map<string, int>, rs: seq<Result<Entry, ParseError>>): (r: ParseRun)
    ensures store.Keys <= r.store.Keys
    ensures r.error.None? <==> AllSucceed(rs)
    decreases |rs|
  {
    if |rs| == 0 then ParseRun(store, None)
    else
      match rs[0]
      case Failure(e) => ParseRun(store, Some(e))
      case Success(entry) =>
        assert AllSucceed(rs) <==> AllSucceed(rs[1..]) by {
          assert forall i :: 1 <= i < |rs| ==> rs[i] == rs[1..][i - 1];
        }
        Pass(store[entry.key := entry.value], rs[1..])
  }

  /** `_meminfo_parse(lines)` on a parser whose store holds `store`. */
  function MeminfoParse(store: map<string, int>, lines: seq<string>): (r: ParseRun)
    ensures store.Keys <= r.store.Keys
    ensures r.error.None? <==> AllParse(lines)
  {
    Pass(store, Outcomes(lines))
  }

  /**
   Reference reading of the store after a fully successful pass: a key takes
   the value of the LAST entry that names it, and keeps its earlier value
   when no entry names it.
   */
  function Lookup(store: map<string, int>, rs: seq<Result<Entry, ParseError>>, k: string): Option<int>
    requires AllSucceed(rs)
    decreases |rs|
  {
    if |rs| == 0 then Get(store, k)
    else
      var e := rs[|rs| - 1].value;
      if e.key == k then Some(e.value) else Lookup(store, rs[..|rs| - 1], k)
  }

  /** Passing over `a + b` is passing over `a`, then (if it got through) over `b` into the result. */
  lemma {:induction false} PassAppend(store: map<string, int>, a: seq<Result<Entry, ParseError>>,
                                      b: seq<Result<Entry, ParseError>>)
    ensures Pass(store, a + b)
            == var ra := Pass(store, a);
               if ra.error.Some? then ra else Pass(ra.store, b)
    decreases |a|
  {
    if |a| == 0 {
      assert a + b == b;
    } else {
      assert (a + b)[0] == a[0];
      assert (a + b)[1..] == a[1..] + b;
      match a[0]
      case Failure(_) =>
      case Success(e) =>
        PassAppend(store[e.key := e.value], a[1..], b);
    }
  }

  /** After a successful pass every key holds the value of the last entry naming it (last write wins). */
  lemma {:induction false} PassLastWins(store: map<string, int>, rs: seq<Result<Entry, ParseError>>, k: string)
    requires AllSucceed(rs)
    ensures Get(Pass(store, rs).store, k) == Lookup(store, rs, k)
    decreases |rs|
  {
    if |rs| > 0 {
      var init := rs[..|rs| - 1];
      var last := rs[|rs| - 1];
      assert rs == init + [last];
      PassAppend(store, init, [last]);
      PassLastWins(store, init, k);
      assert [last][1..] == [];
    }
  }

  /** The first failing line ends the pass; the store holds exactly the updates of the lines before it. */
  lemma PassStopsAtFirstFailure(store: map<string, int>, rs: seq<Result<Entry, ParseError>>, j: nat)
    requires j < |rs| && rs[j].Failure?
    requires AllSucceed(rs[..j])
    ensures Pass(store, rs) == ParseRun(Pass(store, rs[..j]).store, Some(rs[j].error))
  {
    assert rs == rs[..j] + rs[j..];
    PassAppend(store, rs[..j], rs[j..]);
    assert rs[j..][0] == rs[j];
  }

  /**
   The store is only ever added to: a pass leaves the old store overlaid
   with exactly what the same pass builds from an empty store, and ends with
   the same error.
   */
  lemma {:induction false} PassOverlay(store: map<string, int>, rs: seq<Result<Entry, ParseError>>)
    ensures var alone := Pass(map[], rs);
            Pass(store, rs) == ParseRun(store + alone.store, alone.error)
    decreases |rs|
  {
    if |rs| == 0 {
      assert store + map[] == store;
    } else {
      match rs[0]
      case Failure(_) =>
        assert store + map[] == store;
      case Success(e) =>
        var rest := Pass(map[], rs[1..]).store;
        PassOverlay(store[e.key := e.value], rs[1..]);
        PassOverlay(map[e.key := e.value], rs[1..]);
        assert store + (map[e.key := e.value] + rest) == store[e.key := e.value] + rest;
    }
  }

  /** The first error of a pass: an outcome that is an error, with every earlier one an entry. */
  predicate FailsFirstAt(rs: seq<Result<Entry, ParseError>>, j: int)
  {
    0 <= j < |rs| && rs[j].Failure? && AllSucceed(rs[..j])
  }

  /**
   A pass that does not get through raises the error of its first failing
   line and leaves the store holding the updates of every line before it.
   */
  lemma PassFailsAtFirstError(store: map<string, int>, rs: seq<Result<Entry, ParseError>>)
    requires !AllSucceed(rs)
    ensures exists j :: FailsFirstAt(rs, j)
                        && Pass(store, rs) == ParseRun(Pass(store, rs[..j]).store, Some(rs[j].error))
  {
    var j :| 0 <= j < |rs| && rs[j].Failure?;
    while exists i :: 0 <= i < j && rs[i].Failure?
      invariant 0 <= j < |rs| && rs[j].Failure?
      decreases j
    {
      var earlier :| 0 <= earlier < j && rs[earlier].Failure?;
      j := earlier;
    }
    PassStopsAtFirstFailure(store, rs, j);
    assert FailsFirstAt(rs, j);
  }

  /**
   A line without `:` and without spaces (an empty line, say) aborts the
   parse with `IndexError`; the lines before it have already updated the store.
   */
  lemma ParseAbortsOnBareLine(store: map<string, int>, lines: seq<string>, j: nat)
    requires j < |lines| && ':' !in lines[j] && ' ' !in lines[j]
    requires AllParse(lines[..j])
    ensures MeminfoParse(store, lines) == ParseRun(MeminfoParse(store, lines[..j]).store, Some(MissingValue))
  {
    var rs := Outcomes(lines);
    assert lines == lines[..j] + lines[j..];
    OutcomesAppend(lines[..j], lines[j..]);
    assert rs[..j] == Outcomes(lines[..j]);
    OutcomeAt(lines, j);
    NoSeparatorLine(lines[j]);
    PassStopsAtFirstFailure(store, rs, j);
  }

  /** After a successful `_meminfo_parse` a key holds the value of the last line naming it. */
  lemma ParseLastWins(store: map<string, int>, lines: seq<string>, k: string)
    requires AllParse(lines)
    ensures Get(MeminfoParse(store, lines).store, k) == Lookup(store, Outcomes(lines), k)
  {
    PassLastWins(store, Outcomes(lines), k);
  }

  /** Feeding the same lines twice gives the same store and outcome as feeding them once. */
  lemma ParseIdempotent(store: map<string, int>, lines: seq<string>)
    ensures MeminfoParse(MeminfoParse(store, lines).store, lines) == MeminfoParse(store, lines)
  {
    var rs := Outcomes(lines);
    var alone := Pass(map[], rs);
    PassOverlay(store, rs);
    PassOverlay(store + alone.store, rs);
    assert (store + alone.store) + alone.store == store + alone.store;
  }

  /**
   Two successive passes over `a` then `b` from a new parser: `b`'s entries
   overlay `a`'s, and keys only `a` produced persist with `a`'s values. This
   holds whether or not either pass raised: a pass that raises keeps the
   entries of the lines before the failing one.
   */
  lemma ParseTwice(a: seq<string>, b: seq<string>)
    ensures var sa := MeminfoParse(map[], a).store;
            var sb := MeminfoParse(map[], b).store;
            var s := MeminfoParse(sa, b).store;
            && s == sa + sb
            && (forall k :: k in sa && k !in sb ==> k in s && s[k] == sa[k])
            && (forall k :: k in sb ==> k in s && s[k] == sb[k])
  {
    PassOverlay(MeminfoParse(map[], a).store, Outcomes(b));
  }

  /** One iteration of the pass, seen from the position `i` it has reached. */
  lemma PassStep(acc: map<string, int>, rs: seq<Result<Entry, ParseError>>, i: nat)
    requires i < |rs|
    ensures rs[i].Failure? ==> Pass(acc, rs[i..]) == ParseRun(acc, Some(rs[i].error))
    ensures rs[i].Success? ==>
              Pass(acc, rs[i..]) == Pass(acc[rs[i].value.key := rs[i].value.value], rs[i + 1..])
  {
    assert rs[i..][0] == rs[i];
    assert rs[i..][1..] == rs[i + 1..];
  }

  /**
   The `for` loop of `_meminfo_parse` as written: computes each line's
   update, applies it to the store, and stops at the first line that raises.
   */
  method MeminfoParseLoop(store: map<string, int>, lines: seq<string>) returns (r: ParseRun)
    ensures store.Keys <= r.store.Keys
    ensures r.error.None? <==> AllParse(lines)
    ensures r.error.None? ==> forall k :: Get(r.store, k) == Lookup(store, Outcomes(lines), k)
    ensures r == MeminfoParse(store, lines)
  {
    ghost var rs := Outcomes(lines);
    var acc := store;
    var i := 0;
    while i < |lines|
      invariant i <= |lines| == |rs|
      invariant Pass(store, rs) == Pass(acc, rs[i..])
    {
      var outcome := LineEntry(lines[i]);
      OutcomeAt(lines, i);
      PassStep(acc, rs, i);
      match outcome
      case Failure(e) =>
        r := ParseRun(acc, Some(e));
        return;
      case Success(entry) =>
        acc := acc[entry.key := entry.value];
        i := i + 1;
    }
    r := ParseRun(acc, None);
    assert rs[i..] == [];
    if r.error.None? {
      forall k ensures Get(r.store, k) == Lookup(store, rs, k) {
        PassLastWins(store, rs, k);
      }
    }
  }
}
