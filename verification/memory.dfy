/**
 `_MemoryParser` (its store and `parse`) and the `Memory` object that mounts
 the parsed entries as attributes and re-parses on `refresh()`.

 An object's attributes are a map from name to value. Besides the mounted
 entries it holds `unit`, which starts as the string `"kB"`; a store key
 `"unit"` overwrites it like any other attribute.
 */
module MemoryProbe {
  import opened Outcome
  import opened Meminfo
  import opened ParserStore

  /** The unit `Memory.__init__` records. */
  const KiloBytes := "kB"

  /** An attribute value: a mounted integer, or the `unit` string. */
  datatype Attr = IntAttr(n: int) | StrAttr(s: string)

  /** `_MemoryParser`: its private store, created empty and never replaced. */
  datatype MemoryParser = MemoryParser(store: map<string, int>)

  /** The parser after a call of `parse()`, and what the call returned or raised. */
  datatype ParseCall = ParseCall(parser: MemoryParser, result: Result<map<string, int>, ParseError>)

  /** A `Memory` object: its parser and its attributes. */
  datatype Memory = Memory(parser: MemoryParser, attrs: map<string, Attr>)

  /** The object after `refresh()`, and the error the call raised, if any. */
  datatype RefreshCall = RefreshCall(memory: Memory, error: Option<ParseError>)

  /** `_MemoryParser()`. */
  function NewParser(): (r: MemoryParser)
    ensures r.store.Keys == {}
  {
    MemoryParser(map[])
  }

  /**
   `parse()` over the given meminfo lines: runs `_meminfo_parse` on the store
   and returns the whole store. When a line raises, the error propagates and
   the store keeps the updates already made.
   */
  function Parse(p: MemoryParser, lines: seq<string>): (r: ParseCall)
    ensures p.store.Keys <= r.parser.store.Keys
    ensures r.parser.store == p.store + MeminfoParse(map[], lines).store
    ensures r.result.Success? <==> AllParse(lines)
    ensures r.result.Success? ==> r.result.value == r.parser.store
    ensures r.result.Failure? ==> r.result.error == MeminfoParse(map[], lines).error.value
    ensures r.result.Success? <==> MeminfoParse(map[], lines).error.None?
  {
    var run := MeminfoParse(p.store, lines);
    PassOverlay(p.store, Outcomes(lines));
    ParseCall(MemoryParser(run.store),
              if run.error.None? then Success(run.store) else Failure(run.error.value))
  }

  /** `__mount`: every entry of `data` becomes the attribute of the same name. */
  function Mount(attrs: map<string, Attr>, data: map<string, int>): (r: map<string, Attr>)
    ensures r.Keys == attrs.Keys + data.Keys
    ensures forall k :: k in data ==> r[k] == IntAttr(data[k])
    ensures forall k :: k in attrs && k !in data ==> r[k] == attrs[k]
  {
    attrs + map k | k in data :: IntAttr(data[k])
  }

  /** Mounting the same entries again changes nothing. */
  lemma MountTwice(attrs: map<string, Attr>, data: map<string, int>)
    ensures Mount(Mount(attrs, data), data) == Mount(attrs, data)
  {
    var once := Mount(attrs, data);
    assert Mount(once, data).Keys == once.Keys;
  }

  /** Every key of the parser's store is an attribute holding the stored value. */
  predicate Mounted(m: Memory)
  {
    forall k :: k in m.parser.store ==> k in m.attrs && m.attrs[k] == IntAttr(m.parser.store[k])
  }

  /** Every attribute whose name is not a key of `store` keeps its value. */
  predicate KeepsOthers(before: map<string, Attr>, after: map<string, Attr>, store: map<string, int>)
  {
    forall k :: k in before && k !in store ==> k in after && after[k] == before[k]
  }

  /** `unit` still holds the string `"kB"`. */
  predicate UnitIsKiloBytes(attrs: map<string, Attr>)
  {
    "unit" in attrs && attrs["unit"] == StrAttr(KiloBytes)
  }

  /**
   `Memory()`: a new parser, one `parse()`, `unit = "kB"`, then `__mount`.
   A parse error propagates and no object exists.
   */
  function Init(lines: seq<string>): (r: Result<Memory, ParseError>)
    ensures r.Success? <==> AllParse(lines)
    ensures r.Success? ==> r.value.parser.store == MeminfoParse(map[], lines).store
    ensures r.Success? ==> Mounted(r.value)
    ensures r.Success? ==> r.value.attrs.Keys == r.value.parser.store.Keys + {"unit"}
    ensures r.Success? ==> (UnitIsKiloBytes(r.value.attrs) <==> "unit" !in r.value.parser.store)
    ensures r.Failure? ==> r.error == MeminfoParse(map[], lines).error.value
  {
    var call := Parse(NewParser(), lines);
    assert map[] + MeminfoParse(map[], lines).store == MeminfoParse(map[], lines).store;
    match call.result
    case Failure(e) => Failure(e)
    case Success(data) =>
      Success(Memory(call.parser, Mount(map["unit" := StrAttr(KiloBytes)], data)))
  }

  /**
   The second half of `refresh()`: the parser has been called; a returned
   store is mounted over the attributes, a raised error leaves them alone.
   */
  function Remount(attrs: map<string, Attr>, call: ParseCall): (r: RefreshCall)
    requires call.result.Success? ==> call.result.value == call.parser.store
    ensures r.memory.parser == call.parser
    ensures r.error.None? <==> call.result.Success?
    ensures r.error.Some? ==> r.error.value == call.result.error
    ensures r.error.None? ==> Mounted(r.memory)
    ensures r.error.None? ==> r.memory.attrs.Keys == attrs.Keys + call.parser.store.Keys
    ensures r.error.None? ==> KeepsOthers(attrs, r.memory.attrs, call.parser.store)
    ensures r.error.Some? ==> r.memory.attrs == attrs
    ensures UnitIsKiloBytes(attrs) && "unit" !in call.parser.store ==> UnitIsKiloBytes(r.memory.attrs)
  {
    if call.result.Failure? then RefreshCall(Memory(call.parser, attrs), Some(call.result.error))
    else RefreshCall(Memory(call.parser, Mount(attrs, call.result.value)), None)
  }

  /**
   `refresh()`: parse again with the same parser and mount the result. The
   store accumulates; on an error the attributes are left as they were while
   the store keeps the partial updates.
   */
  function Refresh(m: Memory, lines: seq<string>): (r: RefreshCall)
    ensures r.error == MeminfoParse(map[], lines).error
    ensures r.memory.parser.store == m.parser.store + MeminfoParse(map[], lines).store
    ensures r.error.None? ==> Mounted(r.memory)
    ensures r.error.None? ==> r.memory.attrs.Keys == m.attrs.Keys + r.memory.parser.store.Keys
    ensures r.error.None? ==> KeepsOthers(m.attrs, r.memory.attrs, r.memory.parser.store)
    ensures r.error.Some? ==> r.memory.attrs == m.attrs
    ensures UnitIsKiloBytes(m.attrs) && "unit" !in r.memory.parser.store ==> UnitIsKiloBytes(r.memory.attrs)
  {
    var run := MeminfoParse(map[], lines);
    var r := Remount(m.attrs, Parse(m.parser, lines));
    assert r.error == run.error by {
      if run.error.Some? {
        assert r.error.value == run.error.value;
      }
    }
    r
  }

  /** Refreshing twice from an unchanged source leaves the object as one refresh does. */
  lemma RefreshIdempotent(m: Memory, lines: seq<string>)
    ensures Refresh(Refresh(m, lines).memory, lines) == Refresh(m, lines)
  {
    var once := Refresh(m, lines);
    var twice := Refresh(once.memory, lines);
    var alone := MeminfoParse(map[], lines).store;
    assert (m.parser.store + alone) + alone == m.parser.store + alone;
    assert twice.memory.parser == once.memory.parser;
    assert twice.error == once.error;
    if once.error.None? {
      MountTwice(m.attrs, once.memory.parser.store);
    }
  }

  /**
   A refresh after a successful construction: the store is the union of both
   stores, and an entry that was present at construction but absent from the
   new source keeps its constructed value. This holds also when the refresh
   raises partway, since the attributes are then left as constructed; only a
   refresh that gets through mounts the new entries.
   */
  lemma RefreshAfterInit(a: seq<string>, b: seq<string>)
    requires AllParse(a)
    ensures var m := Init(a).value;
            var r := Refresh(m, b);
            var sa := MeminfoParse(map[], a).store;
            var sb := MeminfoParse(map[], b).store;
            && (r.error.None? <==> AllParse(b))
            && r.memory.parser.store == sa + sb
            && (forall k :: k in sa && k !in sb ==> r.memory.attrs[k] == IntAttr(sa[k]))
            && (AllParse(b) ==> forall k :: k in sb ==> r.memory.attrs[k] == IntAttr(sb[k]))
            && ("unit" !in sa && "unit" !in sb ==> UnitIsKiloBytes(r.memory.attrs))
  {
  }
}
