# sysprober memory probe in Dafny

A model of the memory prober of `sysprober`. `_MemoryParser` reads the
kernel's meminfo text line by line. Each line's label is normalised into a
Python-safe attribute name (`_filter_attr`), and its value is stored in an
accumulating `str → int` store. `Memory` mounts the store's entries as
attributes, records `unit = "kB"`, and re-parses on `refresh()`.

Modules, one per component:

- `Outcome` (`outcome.dfy`): `Option`, `Result` and map lookup.
- `Text` (`text.dfy`): the `str` operations the parser uses. These are
  `strip(c)`, `split(c)` on one character, `replace` and ASCII `lower()`.
- `Nesting` (`nesting.dfy`): `_flatten` over arbitrarily nested lists.
- `Sequences` (`sequences.dfy`): applying a function to each element, as the
  per-line and per-piece loops do.
- `Decimal` (`decimal.dfy`): `int()` on a value token.
- `Meminfo` (`meminfo.dfy`): tokenising one line, `check_unit`,
  `_filter_attr`, and one line's update or error.
- `ParserStore` (`parser_store.dfy`): the `_meminfo_parse` loop over the store.
- `MemoryProbe` (`memory.dfy`): `_MemoryParser.parse`, `Memory.__init__`,
  `__mount` and `refresh`.

## Where the code and its description differ

The model follows the code in each case:

- **`check_unit` raises nothing.** The lambda only *returns* a
  `MemoryUnitMismatchError`, and the loop drops the returned value. So a line
  whose unit is `MB` is stored like any other line. The class docstring
  says this error is raised. `UnitCheckOf` models the
  value that is built. `MegabyteLine` shows that the value is built and that
  the line is still stored.
- **Lines without a value are not skipped.** A line with one token raises
  `IndexError` at `token[1]`, and an empty value token raises `ValueError`
  from `int()`. Either error ends the pass. The lines before it have already
  updated the store.
- **The store is never replaced.** It is created once, in `__init__`. Later
  parses only `update` it, so keys from earlier parses stay. Attributes are
  never removed either.
- **A store key `unit` overwrites the `unit` attribute.** `__init__` sets
  `unit` *before* it mounts the entries.

## Model

| member | source | states |
|---|---|---|
| Text.TrimStart | src/sysprober/memory/memory.py:42 | the result is a suffix of the input, every removed character is the strip character, and the result does not start with it |
| Text.TrimEnd | src/sysprober/memory/memory.py:42 | the result is a prefix of the input, every removed character is the strip character, and the result does not end with it |
| Text.Strip | src/sysprober/memory/memory.py:41-42 | `strip(c)`: the result neither starts nor ends with `c`, and every character in it comes from the input |
| Text.StripPadded | src/sysprober/memory/memory.py:41-42 | `strip(c)` of padding + core + padding is exactly the core, when the core does not start or end with `c` |
| Text.TrimStartPad | src/sysprober/memory/memory.py:42 | a leading run of `c` is removed up to the first character that is not `c` |
| Text.TrimEndPad | src/sysprober/memory/memory.py:41 | a trailing run of `c` is removed back to the last character that is not `c` |
| Text.Split | src/sysprober/memory/memory.py:41-42 | `split(c)` gives at least one piece, and no piece contains `c` |
| Text.JoinSplit | src/sysprober/memory/memory.py:41-42 | joining the pieces of `split(c)` with `c` gives back the input |
| Text.SplitJoin | src/sysprober/memory/memory.py:41-42 | `split(c)` recovers any non-empty list of pieces that was joined with `c`, when no piece contains `c` |
| Text.SplitWithout | src/sysprober/memory/memory.py:41-42 | a string that does not contain `c` splits into the string itself |
| Text.SplitAfter | src/sysprober/memory/memory.py:41 | a prefix free of `c`, followed by `c`, becomes the first piece and the rest is split further |
| Text.Lower | src/sysprober/memory/memory.py:38 | ASCII `lower()`: same length, each character lower-cased, and no upper-case letter left |
| Text.Replace | src/sysprober/memory/memory.py:61-63 | `replace(x, y)` on single characters: same length, every `x` becomes `y`, every other character is kept, so no `x` is left when `x != y` |
| Nesting.FlattenGroup | src/sysprober/memory/memory.py:75-79 | a nested list standing alone flattens to the flattening of its contents, so recursion reaches every depth |
| Nesting.FlattenAppend | src/sysprober/memory/memory.py:65-81 | flattening the concatenation of two lists concatenates their flattenings |
| Nesting.FlattenAtoms | src/sysprober/memory/memory.py:74-81 | a list with no nested list is returned unchanged |
| Nesting.FlattenGroups | src/sysprober/memory/memory.py:74-81 | a list of flat lists flattens to the inner lists' concatenation, in order |
| Nesting.FlattenGroupsLength | src/sysprober/memory/memory.py:74-81 | the flattened list is as long as the inner lists together |
| Nesting.ConcatLength | src/sysprober/memory/memory.py:74-81 | the concatenation is as long as the sum of the inner lengths |
| Nesting.Flatten | src/sysprober/memory/memory.py:65-81 | `_flatten` keeps every top-level non-list element; its full meaning, at any nesting depth, is stated by `FlattenAppend` (flattening distributes over concatenation), `FlattenGroup` (a one-element list holding a nested list flattens to that list's flattening) and `FlattenAtoms` (a flat list is returned unchanged) |
| Decimal.ParseDecimal | src/sysprober/memory/memory.py:48 | `int(token)` succeeds exactly when the token is a non-empty run of ASCII digits |
| Decimal.ToDecimal | src/sysprober/memory/memory.py:48 | a natural number is spelled as a digit string with no leading zero (except `0` itself) |
| Decimal.DecimalRoundTrip | src/sysprober/memory/memory.py:48 | `int(str(n)) == n` for every natural `n` |
| Decimal.LeadingZeros | src/sysprober/memory/memory.py:48 | leading zeros do not change the value of a digit string |
| Decimal.ZerosValue | src/sysprober/memory/memory.py:48 | a run of zeros denotes 0 |
| Decimal.DigitsValue | src/sysprober/memory/memory.py:48 | the value `int()` returns for a run of k digits is below `10 ** k` |
| Meminfo.CheckUnit | src/sysprober/memory/memory.py:37-39 | `check_unit` gives no error object exactly for `kB`, `kb`, `KB` and `Kb`; otherwise it gives a `MemoryUnitMismatchError` naming the entry, with the default description |
| Meminfo.UnitCheckOf | src/sysprober/memory/memory.py:44-47 | the guarded `check_unit(token[0], token[2])` builds an error object exactly when there is a third token that is not a spelling of kB, and that object names `token[0]`; with fewer tokens the `IndexError` is swallowed and nothing is built |
| Meminfo.FilterAttr | src/sysprober/memory/memory.py:59-63 | the result has no `(` or `)` and no upper-case letter; it is one character shorter when the label ends with `)` and otherwise the same length; each position holds the label's character with parentheses turned into `_` and letters lower-cased |
| Meminfo.FilterAttrIdempotent | src/sysprober/memory/memory.py:59-63 | normalising an already normalised label changes nothing |
| Meminfo.FilterAttrExamples | src/sysprober/memory/memory.py:59-63 | `Active(anon)` becomes `active_anon`, `Committed_AS` becomes `committed_as`, and `MemTotal` becomes `memtotal` |
| Meminfo.Lexeme | src/sysprober/memory/memory.py:41-42 | a line gives at least one piece, and every piece gives at least one token |
| Meminfo.PieceTokens | src/sysprober/memory/memory.py:42 | `i.strip(" ").split(" ")` gives at least one token, and no token contains a space |
| Meminfo.Tokenize | src/sysprober/memory/memory.py:43 | the token list is never empty, so `token[0]` always exists |
| Meminfo.TokenizeConcat | src/sysprober/memory/memory.py:41-43 | the tokens are the tokens of each colon-separated piece, one piece after the other |
| Meminfo.EntryOf | src/sysprober/memory/memory.py:44-48 | the update succeeds exactly when there is a second token and it is a decimal numeral; the key is then `_filter_attr(token[0])` and the value is the numeral's value; otherwise the error is `IndexError` (one token) or `ValueError` naming the second token |
| Meminfo.LineEntry | src/sysprober/memory/memory.py:41-48 | a stored key never contains a parenthesis, and a stored value is never negative |
| Meminfo.HolderOf | src/sysprober/memory/memory.py:41 | `<name>:<rest>` followed by newlines splits into exactly the name and the rest |
| Meminfo.TokensOfTwoPieces | src/sysprober/memory/memory.py:42-43 | a line with two colon-separated pieces yields the first piece's tokens, then the second's |
| Meminfo.NameToken | src/sysprober/memory/memory.py:42 | a label without spaces is one token |
| Meminfo.ValueTokens | src/sysprober/memory/memory.py:42 | `<spaces><digits>[ <unit>]` yields the value token, then the unit token if there is one |
| Meminfo.ValueIsOnePiece | src/sysprober/memory/memory.py:41 | the value part of a well-formed line holds no `:` and does not end in a newline |
| Meminfo.NamedPiece | src/sysprober/memory/memory.py:41-43 | `<label>:<rest>` followed by newlines tokenises to the label, then the tokens of `rest` |
| Meminfo.WellFormedTokens | src/sysprober/memory/memory.py:41-43 | `<label>:<spaces><digits>[ <unit>]` tokenises to the label, the value and the unit if there is one |
| Meminfo.WellFormedLine | src/sysprober/memory/memory.py:40-48 | a well-formed line stores the normalised label with the value for every unit, including units the unit check rejects; the unit check sees the label and the unit |
| Meminfo.MemTotalLine | src/sysprober/memory/memory.py:40-48 | `MemTotal:<spaces>N kB` stores `memtotal ↦ N` |
| Meminfo.MegabyteLine | src/sysprober/memory/memory.py:37-48 | `<label>:<spaces>N MB` builds a `MemoryUnitMismatchError` for the label but is still stored with value N |
| Meminfo.NoUnitLine | src/sysprober/memory/memory.py:44-48 | for every label, a line `<label>:<spaces>N` with no unit has no third token: the unit check is skipped (the `IndexError` is swallowed) and `_filter_attr(label) ↦ N` is stored |
| Meminfo.SingleToken | src/sysprober/memory/memory.py:41-43 | text with no `:` and no space is a single token |
| Meminfo.NoSeparatorLine | src/sysprober/memory/memory.py:41-48 | a line with no `:` and no space, the empty line included, raises `IndexError` at `token[1]` |
| Meminfo.BlankPiece | src/sysprober/memory/memory.py:42 | a piece of spaces alone yields one empty token |
| Meminfo.ValuelessTokens | src/sysprober/memory/memory.py:41-43 | `Label:` followed only by spaces yields the label and one empty token |
| Meminfo.ValuelessLine | src/sysprober/memory/memory.py:41-48 | `Label:` followed only by spaces raises `ValueError` from `int("")` |
| Meminfo.Outcomes | src/sysprober/memory/memory.py:40 | one outcome per line of the input, in order; `OutcomeAt` gives each one |
| Meminfo.OutcomeAt | src/sysprober/memory/memory.py:40 | the i-th outcome is the i-th line's update or error |
| Meminfo.OutcomesAppend | src/sysprober/memory/memory.py:40 | the outcomes of two blocks of lines are each block's outcomes, in order |
| ParserStore.Pass | src/sysprober/memory/memory.py:40-48 | the store only gains keys, and the pass ends without error exactly when every line yields an entry |
| ParserStore.MeminfoParse | src/sysprober/memory/memory.py:36-48 | `_meminfo_parse` keeps every key the store already had, and it succeeds exactly when every line parses |
| ParserStore.PassAppend | src/sysprober/memory/memory.py:40-48 | a pass over `a + b` is a pass over `a`, then a pass over `b` into that result, unless `a` already failed |
| ParserStore.PassLastWins | src/sysprober/memory/memory.py:48 | after a successful pass each key holds the value of the last line naming it; a key no line names keeps its old value |
| ParserStore.PassStopsAtFirstFailure | src/sysprober/memory/memory.py:40-48 | the first failing line ends the pass with its error; the store holds exactly the updates of the lines before it |
| ParserStore.PassOverlay | src/sysprober/memory/memory.py:29 | a pass leaves the old store overlaid with what the same lines build from an empty store, and it ends with the same error |
| ParserStore.PassFailsAtFirstError | src/sysprober/memory/memory.py:40-48 | a pass that fails fails at some first failing line, with that line's error and the earlier lines' updates |
| ParserStore.ParseAbortsOnBareLine | src/sysprober/memory/memory.py:40-48 | a line with no `:` and no space aborts the parse with `IndexError`, after the earlier lines have updated the store |
| ParserStore.ParseLastWins | src/sysprober/memory/memory.py:48 | for duplicate normalised keys, the last line wins |
| ParserStore.ParseIdempotent | src/sysprober/memory/memory.py:29-48 | parsing the same lines twice leaves the store and the outcome as one parse does |
| ParserStore.ParseTwice | src/sysprober/memory/memory.py:29-48 | parsing A and then B gives A's entries overlaid with B's, even when the parse of A raised partway; keys only in A keep A's values |
| ParserStore.PassStep | src/sysprober/memory/memory.py:40-48 | one loop iteration either stops with the line's error or applies the line's update and moves on |
| ParserStore.MeminfoParseLoop | src/sysprober/memory/memory.py:36-48 | the loop keeps every old key, succeeds exactly when every line parses, leaves each key with its last line's value, and agrees with `MeminfoParse` |
| MemoryProbe.Parse | src/sysprober/memory/memory.py:31-34 | `parse()` leaves the store equal to the old store overlaid with the lines' entries; on success it returns the whole store; its error does not depend on the old store |
| MemoryProbe.NewParser | src/sysprober/memory/memory.py:28-29 | a new parser starts with an empty store |
| MemoryProbe.Mount | src/sysprober/memory/memory.py:91-94 | every entry becomes the attribute of the same name with its value; other attributes are untouched |
| MemoryProbe.MountTwice | src/sysprober/memory/memory.py:91-94 | mounting the same entries again changes nothing |
| MemoryProbe.Init | src/sysprober/memory/memory.py:84-89 | construction succeeds exactly when every line parses; each store key is then an attribute with its value, the attributes are the store keys plus `unit`, and `unit` is `"kB"` exactly when no key is named `unit` |
| MemoryProbe.Remount | src/sysprober/memory/memory.py:97-98 | after the parser call, a returned store is mounted: every key becomes an attribute with its value and no attribute is lost; a raised error leaves the attributes as they were |
| MemoryProbe.Refresh | src/sysprober/memory/memory.py:96-98 | the store accumulates, even on error; on success every store key is an attribute with its value and no attribute is lost; on error the attributes are unchanged; a `"kB"` unit stays `"kB"` unless a key named `unit` is mounted |
| MemoryProbe.RefreshIdempotent | src/sysprober/memory/memory.py:96-98 | refreshing twice from an unchanged source leaves the object as one refresh does |
| MemoryProbe.RefreshAfterInit | src/sysprober/memory/memory.py:84-98 | after construction from A and refresh from B, whether or not the refresh raises: the refresh succeeds exactly when every line of B parses; the store is A overlaid with B (partial on an error); keys only in A keep A's values as attributes; `unit` stays `"kB"` when neither source has a `unit` key; on success every key of B is mounted with B's value |

## Left out

- `src/sysprober/pkgmanager/pkgmanager.py`: its only logic is executable lookups through `shutil.which` over two fixed name sets. That is environment I/O.
- Reading `/proc/meminfo` (`open(...).readlines()`): the lines are a parameter of `Parse`, `Init` and `Refresh`.
- The `readonlydict` decorator, `Parser` and `ParserException` come from `sysprober._base`, which is not part of this model. `Parse` returns the store's contents at the moment of return. The model claims no immutability or snapshot behaviour for the returned value. The private `__data` field is not modelled: attributes are mounted from the store right after a successful parse, which is the same whether the decorator copies or wraps.
- `int()`: signs, underscores, surrounding whitespace and non-ASCII digits are not modelled. A value token is accepted exactly when it is a non-empty run of ASCII digits.
- `str.lower()`: only ASCII letters are lower-cased.
- `setattr`: attributes are a name-to-value map. A key that shadows a method (for example `refresh`) is not modelled beyond the map entry.
- `MemoryUnitMismatchError.__repr__` formatting.
- A failed `Memory()` construction is modelled as a `Failure`. The parser whose store it updated is unreachable afterwards, so it is not returned.
