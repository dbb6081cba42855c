/**
 `_MemoryParser._meminfo_parse` and its helpers: each line of the meminfo
 text is tokenised, its label normalised by `_filter_attr` and its value
 converted by `int()`, and the pair is written into the parser's store.
 */
module Meminfo {
  import opened Outcome
  import opened Text
  import opened Nesting
  import opened Decimal
  import opened Sequences

  /** The default description `MemoryUnitMismatchError` carries. */
  const DefaultDesc := "Unit of measure for entry is not in kB."

  /** `MemoryUnitMismatchError(entry)`: only ever built, never raised. */
  datatype UnitMismatch = UnitMismatch(entry: string, desc: string)

  /** What makes `_meminfo_parse` raise: `IndexError` for `token[1]`, `ValueError` from `int()`. */
  datatype ParseError = MissingValue | NotAnInteger(literal: string)

  /** One `{key: value}` update of the store. */
  datatype Entry = Entry(key: string, value: int)

  /** The store after a call of `_meminfo_parse`, and the error that ended it early, if any. */
  datatype ParseRun = ParseRun(store: map<string, int>, error: Option<ParseError>)

  // ---------------------------------------------------------------------------
  // check_unit

  /** The spellings of kilobytes that `unit.lower() == "kb"` accepts. */
  predicate IsKilobyteSpelling(u: string)
  {
    |u| == 2 && (u[0] == 'k' || u[0] == 'K') && (u[1] == 'b' || u[1] == 'B')
  }

  /** The `check_unit` lambda: an error object for any unit other than kB, `None` otherwise. */
  function CheckUnit(entry: string, unit: string): (r: Option<UnitMismatch>)
    ensures r.None? <==> IsKilobyteSpelling(unit)
    ensures r.Some? ==> r.value == UnitMismatch(entry, DefaultDesc)
  {
    var lowered := Lower(unit);
    assert |lowered| == 2 ==> lowered[0] == LowerChar(unit[0]) && lowered[1] == LowerChar(unit[1]);
    if lowered != "kb" then Some(UnitMismatch(entry, DefaultDesc)) else None
  }

  /**
   The value of the guarded call `check_unit(token[0], token[2])`: with no
   third token the `IndexError` is swallowed. The value is discarded by the
   caller, so it never influences the parse.
   */
  function UnitCheckOf(token: seq<string>): (r: Option<UnitMismatch>)
    requires |token| >= 1
    ensures r.Some? <==> |token| >= 3 && !IsKilobyteSpelling(token[2])
    ensures r.Some? ==> r.value == UnitMismatch(token[0], DefaultDesc)
  {
    if |token| < 3 then None else CheckUnit(token[0], token[2])
  }

  // ---------------------------------------------------------------------------
  // _filter_attr

  /** The character `_filter_attr` puts in place of `c` (when `c` is not a clipped final `)`). */
  function NormChar(c: char): char
  {
    if c == '(' || c == ')' then '_' else LowerChar(c)
  }

  /** `x.endswith(")")`. */
  predicate EndsWithParen(s: string)
  {
    |s| > 0 && s[|s| - 1] == ')'
  }

  /** `clip_paranthesis`: drop one trailing `)`. */
  function ClipParen(s: string): string
  {
    if EndsWithParen(s) then s[..|s| - 1] else s
  }

  /**
   `_filter_attr(a)`: `(` becomes `_`, one trailing `)` is dropped, every
   other `)` becomes `_`, and the result is lower-cased.
   */
  function FilterAttr(a: string): (r: string)
    ensures '(' !in r && ')' !in r
    ensures forall i :: 0 <= i < |r| ==> !IsUpper(r[i])
    ensures |r| == if EndsWithParen(a) then |a| - 1 else |a|
    ensures forall i :: 0 <= i < |r| ==> r[i] == NormChar(a[i])
  {
    Lower(Replace(ClipParen(Replace(a, '(', '_')), ')', '_'))
  }

  /** Normalising a normalised label changes nothing. */
  lemma FilterAttrIdempotent(a: string)
    ensures FilterAttr(FilterAttr(a)) == FilterAttr(a)
  {
    var r := FilterAttr(a);
    assert !EndsWithParen(r);
    assert forall i :: 0 <= i < |r| ==> NormChar(r[i]) == r[i];
  }

  /** Labels as the kernel spells them. */
  lemma FilterAttrExamples()
    ensures FilterAttr("Active(anon)") == "active_anon"
    ensures FilterAttr("Committed_AS") == "committed_as"
    ensures FilterAttr("MemTotal") == "memtotal"
  {
  }

  // ---------------------------------------------------------------------------
  // Tokenising one line

  /**
   `lexeme`: the line without surrounding newlines, split on every `:`, and
   each piece stripped of surrounding spaces and split on single spaces.
   */
  function Lexeme(line: string): (r: seq<seq<string>>)
    ensures |r| >= 1
    ensures forall i :: 0 <= i < |r| ==> |r[i]| >= 1
  {
    var holder := Split(Strip(line, '\n'), ':');
    var r := MapSeq(PieceTokens, holder);
    forall i | 0 <= i < |r| ensures |r[i]| >= 1 {
      MapSeqAt(PieceTokens, holder, i);
    }
    r
  }

  /** One colon-separated piece, stripped of surrounding spaces and split on single spaces. */
  function PieceTokens(piece: string): (r: seq<string>)
    ensures |r| >= 1
    ensures forall i :: 0 <= i < |r| ==> ' ' !in r[i]
  {
    Split(Strip(piece, ' '), ' ')
  }

  /** `token = self._flatten(lexeme)`: never empty, so `token[0]` always exists. */
  function Tokenize(line: string): (r: seq<string>)
    ensures |r| >= 1
  {
    var ls := Lexeme(line);
    FlattenGroups(ls);
    Flatten(Groups(ls))
  }

  /** The tokens are the pieces' tokens one after the other. */
  lemma TokenizeConcat(line: string)
    ensures Tokenize(line) == Concat(Lexeme(line))
  {
    FlattenGroups(Lexeme(line));
  }

  /**
   The update a line's tokens make: `{filter_attr(token[0]): int(token[1])}`,
   or the `IndexError` / `ValueError` that computing it raises.
   */
  function EntryOf(token: seq<string>): (r: Result<Entry, ParseError>)
    requires |token| >= 1
    ensures r.Success? <==> |token| >= 2 && IsDecimal(token[1])
    ensures r.Success? ==> r.value.key == FilterAttr(token[0]) && r.value.value == DigitsValue(token[1])
    ensures r.Failure? && |token| < 2 ==> r.error == MissingValue
    ensures r.Failure? && |token| >= 2 ==> r.error == NotAnInteger(token[1])
  {
    var key := FilterAttr(token[0]);
    if |token| < 2 then Failure(MissingValue)
    else match ParseDecimal(token[1])
      case None => Failure(NotAnInteger(token[1]))
      case Some(n) => Success(Entry(key, n))
  }

  /** The update one line contributes to the store, or the error it raises. */
  function LineEntry(line: string): (r: Result<Entry, ParseError>)
    ensures r.Success? ==> '(' !in r.value.key && ')' !in r.value.key && r.value.value >= 0
  {
    EntryOf(Tokenize(line))
  }

  predicate AllSpaces(s: string, c: char)
  {
    forall k :: 0 <= k < |s| ==> s[k] == c
  }

  /** `<digits>[ <unit>]`: a value and, when `unit` is not empty, its unit. */
  function ValueText(digits: string, unit: string): string
  {
    if unit == "" then digits else digits + [' '] + unit
  }

  /** The text of a meminfo line `<label>:<pad><digits>[ <unit>]<eol>`. */
  function MeminfoLine(name: string, pad: string, digits: string, unit: string, eol: string): string
  {
    name + ":" + pad + ValueText(digits, unit) + eol
  }

  /** A line `<name>:<rest>` plus newlines splits into exactly its name and its rest. */
  lemma HolderOf(name: string, rest: string, eol: string)
    requires ':' !in name && '\n' !in name && ':' !in rest
    requires |rest| > 0 ==> rest[|rest| - 1] != '\n'
    requires AllSpaces(eol, '\n')
    ensures Split(Strip(name + ":" + rest + eol, '\n'), ':') == [name, rest]
  {
    var body := name + [':'] + rest;
    assert name + ":" + rest + eol == "" + body + eol;
    assert body[0] != '\n' by {
      if |name| > 0 { assert body[0] == name[0]; } else { assert body[0] == ':'; }
    }
    assert body[|body| - 1] != '\n' by {
      if |rest| > 0 { assert body[|body| - 1] == rest[|rest| - 1]; }
      else { assert body[|body| - 1] == ':'; }
    }
    StripPadded("", body, eol, '\n');
    assert Strip(name + ":" + rest + eol, '\n') == body;
    SplitAfter(name, ':', rest);
    SplitWithout(rest, ':');
    SeqPair(name, rest);
  }

  /** A line whose text splits on `:` into two pieces yields the tokens of both pieces, in order. */
  lemma TokensOfTwoPieces(line: string, name: string, rest: string)
    requires Split(Strip(line, '\n'), ':') == [name, rest]
    ensures Tokenize(line) == Split(Strip(name, ' '), ' ') + Split(Strip(rest, ' '), ' ')
  {
    var a := Split(Strip(name, ' '), ' ');
    var b := Split(Strip(rest, ' '), ' ');
    var ls := Lexeme(line);
    TokenizeConcat(line);
    MapSeqAt(PieceTokens, [name, rest], 0);
    MapSeqAt(PieceTokens, [name, rest], 1);
    assert ls == [a, b];
    assert ls[1..] == [b];
    assert Concat([b]) == b + Concat([b][1..]);
    assert [b][1..] == [];
    assert b + [] == b;
  }

  /** A label without spaces is a single token. */
  lemma NameToken(name: string)
    requires ' ' !in name
    ensures Split(Strip(name, ' '), ' ') == [name]
  {
    StripPadded("", name, "", ' ');
    assert "" + name + "" == name;
    SplitWithout(name, ' ');
  }

  /** The value part `<pad><digits>[ <unit>]` yields the value token and the unit token. */
  lemma ValueTokens(pad: string, digits: string, unit: string)
    requires AllSpaces(pad, ' ')
    requires IsDecimal(digits)
    requires ' ' !in unit
    ensures PieceTokens(pad + ValueText(digits, unit))
            == [digits] + (if unit == "" then [] else [unit])
  {
    assert ' ' !in digits by {
      assert forall k :: 0 <= k < |digits| ==> IsDigit(digits[k]);
    }
    var value := ValueText(digits, unit);
    assert value[0] == digits[0];
    assert value[|value| - 1] != ' ' by {
      if unit == "" { assert value[|value| - 1] == digits[|digits| - 1]; }
      else { assert value[|value| - 1] == unit[|unit| - 1]; }
    }
    StripPadded(pad, value, "", ' ');
    assert pad + value + "" == pad + value;
    if unit == "" {
      SplitWithout(digits, ' ');
    } else {
      SplitAfter(digits, ' ', unit);
      SplitWithout(unit, ' ');
    }
  }

  /** The value part holds no `:` and does not end in a newline. */
  lemma ValueIsOnePiece(pad: string, digits: string, unit: string)
    requires AllSpaces(pad, ' ')
    requires IsDecimal(digits)
    requires ':' !in unit && '\n' !in unit
    ensures ':' !in pad + ValueText(digits, unit)
    ensures (pad + ValueText(digits, unit))[|pad + ValueText(digits, unit)| - 1] != '\n'
  {
    var value := ValueText(digits, unit);
    var rest := pad + value;
    forall k | 0 <= k < |rest|
      ensures rest[k] != ':'
    {
      if k < |pad| { assert rest[k] == pad[k]; }
      else if k < |pad| + |digits| { assert rest[k] == digits[k - |pad|]; }
      else if k == |pad| + |digits| { assert rest[k] == ' '; }
      else { assert rest[k] == unit[k - |pad| - |digits| - 1]; }
    }
    if unit == "" { assert rest[|rest| - 1] == digits[|digits| - 1]; }
    else { assert rest[|rest| - 1] == unit[|unit| - 1]; }
  }

  /** `<name>:<rest><newlines>` tokenises to the name followed by the tokens of `rest`. */
  lemma NamedPiece(line: string, name: string, rest: string, eol: string)
    requires line == name + ":" + rest + eol
    requires ':' !in name && ' ' !in name && '\n' !in name
    requires ':' !in rest && (|rest| > 0 ==> rest[|rest| - 1] != '\n')
    requires AllSpaces(eol, '\n')
    ensures Tokenize(line) == [name] + PieceTokens(rest)
  {
    HolderOf(name, rest, eol);
    TokensOfTwoPieces(line, name, rest);
    NameToken(name);
  }

  /**
   A well-formed line tokenises to label, value and (if present) unit, and
   stores the normalised label with the value whatever the unit is: the unit
   check's verdict is computed but plays no part in the result.
   */
  lemma WellFormedLine(name: string, pad: string, digits: string, unit: string, eol: string)
    requires ':' !in name && ' ' !in name && '\n' !in name
    requires AllSpaces(pad, ' ') && AllSpaces(eol, '\n')
    requires IsDecimal(digits)
    requires ':' !in unit && ' ' !in unit && '\n' !in unit
    ensures Tokenize(MeminfoLine(name, pad, digits, unit, eol))
            == [name, digits] + (if unit == "" then [] else [unit])
    ensures LineEntry(MeminfoLine(name, pad, digits, unit, eol))
            == Success(Entry(FilterAttr(name), DigitsValue(digits)))
    ensures UnitCheckOf(Tokenize(MeminfoLine(name, pad, digits, unit, eol)))
            == if unit == "" then None else CheckUnit(name, unit)
  {
    WellFormedTokens(name, pad, digits, unit, eol);
  }

  /** The tokens of a well-formed line are its label, its value and its unit if it has one. */
  lemma WellFormedTokens(name: string, pad: string, digits: string, unit: string, eol: string)
    requires ':' !in name && ' ' !in name && '\n' !in name
    requires AllSpaces(pad, ' ') && AllSpaces(eol, '\n')
    requires IsDecimal(digits)
    requires ':' !in unit && ' ' !in unit && '\n' !in unit
    ensures Tokenize(MeminfoLine(name, pad, digits, unit, eol))
            == [name, digits] + (if unit == "" then [] else [unit])
  {
    var rest := pad + ValueText(digits, unit);
    var units := if unit == "" then [] else [unit];
    ValueIsOnePiece(pad, digits, unit);
    ValueTokens(pad, digits, unit);
    NamedPiece(MeminfoLine(name, pad, digits, unit, eol), name, rest, eol);
    SeqCons(name, digits, units);
  }

  /**
   Sequence-display identities stated once on their own, so that proofs which
   also unfold `Tokenize` need not rediscover them by extensionality.
   */
  lemma SeqCons(x: string, y: string, zs: seq<string>)
    ensures [x] + ([y] + zs) == [x, y] + zs
  {
  }

  /** The two-element case of `SeqCons`, kept separate for the same reason. */
  lemma SeqPair(x: string, y: string)
    ensures [x] + [y] == [x, y]
  {
  }

  /** `MemTotal:<pad><n> kB` stores `memtotal ↦ n`. */
  lemma MemTotalLine(pad: string, n: nat, eol: string)
    requires AllSpaces(pad, ' ') && AllSpaces(eol, '\n')
    ensures LineEntry(MeminfoLine("MemTotal", pad, ToDecimal(n), "kB", eol)) == Success(Entry("memtotal", n))
  {
    WellFormedLine("MemTotal", pad, ToDecimal(n), "kB", eol);
    FilterAttrExamples();
    DecimalRoundTrip(n);
  }

  /**
   `<label>:<pad><n> MB` (as `SwapTotal` may read on some systems) is stored
   like any other line: the unit check builds an error object for the label,
   which the loop never raises.
   */
  lemma MegabyteLine(name: string, pad: string, n: nat, eol: string)
    requires ':' !in name && ' ' !in name && '\n' !in name
    requires AllSpaces(pad, ' ') && AllSpaces(eol, '\n')
    ensures LineEntry(MeminfoLine(name, pad, ToDecimal(n), "MB", eol))
            == Success(Entry(FilterAttr(name), n))
    ensures UnitCheckOf(Tokenize(MeminfoLine(name, pad, ToDecimal(n), "MB", eol)))
            == Some(UnitMismatch(name, DefaultDesc))
  {
    WellFormedLine(name, pad, ToDecimal(n), "MB", eol);
    assert !IsKilobyteSpelling("MB");
    DecimalRoundTrip(n);
  }

  /**
   `<label>:<pad><n>` with no unit (as the `HugePages_*` counts read) has no
   third token: the unit check is skipped and the value stored.
   */
  lemma NoUnitLine(name: string, pad: string, n: nat, eol: string)
    requires ':' !in name && ' ' !in name && '\n' !in name
    requires AllSpaces(pad, ' ') && AllSpaces(eol, '\n')
    ensures LineEntry(MeminfoLine(name, pad, ToDecimal(n), "", eol))
            == Success(Entry(FilterAttr(name), n))
    ensures UnitCheckOf(Tokenize(MeminfoLine(name, pad, ToDecimal(n), "", eol))).None?
  {
    WellFormedLine(name, pad, ToDecimal(n), "", eol);
    DecimalRoundTrip(n);
  }

  /**
   A line with neither `:` nor space (the empty line included) has a
   single token, so `token[1]` raises `IndexError`.
   */
  lemma NoSeparatorLine(line: string)
    requires ':' !in line && ' ' !in line
    ensures LineEntry(line) == Failure(MissingValue)
  {
    SingleToken(line);
  }

  /** Text with neither `:` nor space is one token. */
  lemma SingleToken(line: string)
    requires ':' !in line && ' ' !in line
    ensures |Tokenize(line)| == 1
  {
    var s := Strip(line, '\n');
    SplitWithout(s, ':');
    var t := Strip(s, ' ');
    SplitWithout(t, ' ');
    var ls := Lexeme(line);
    TokenizeConcat(line);
    MapSeqAt(PieceTokens, [s], 0);
    assert ls == [[t]];
    assert Concat(ls) == [t] + Concat(ls[1..]);
    assert ls[1..] == [];
    assert Tokenize(line) == [t];
  }

  /**
   A label with no value after its colon (`Label:` followed only by spaces)
   yields an empty value token, which `int()` rejects with `ValueError`.
   */
  lemma ValuelessLine(name: string, pad: string, eol: string)
    requires ':' !in name && ' ' !in name && '\n' !in name
    requires AllSpaces(pad, ' ') && AllSpaces(eol, '\n')
    ensures LineEntry(name + ":" + pad + eol) == Failure(NotAnInteger(""))
  {
    ValuelessTokens(name, pad, eol);
  }

  /** `<label>:<spaces>` yields the label and one empty value token. */
  lemma ValuelessTokens(name: string, pad: string, eol: string)
    requires ':' !in name && ' ' !in name && '\n' !in name
    requires AllSpaces(pad, ' ') && AllSpaces(eol, '\n')
    ensures Tokenize(name + ":" + pad + eol) == [name, ""]
  {
    BlankPiece(pad);
    NamedPiece(name + ":" + pad + eol, name, pad, eol);
  }

  /** A piece of spaces alone yields one empty token. */
  lemma BlankPiece(pad: string)
    requires AllSpaces(pad, ' ')
    ensures ':' !in pad && (|pad| > 0 ==> pad[|pad| - 1] != '\n')
    ensures PieceTokens(pad) == [""]
  {
    assert ':' !in pad by {
      assert forall k :: 0 <= k < |pad| ==> pad[k] == ' ';
    }
    StripPadded(pad, "", "", ' ');
    assert pad + "" + "" == pad;
    SplitWithout("", ' ');
  }

  /** Every line's outcome, in order. */
  function Outcomes(lines: seq<string>): (r: seq<Result<Entry, ParseError>>)
    ensures |r| == |lines|
  {
    MapSeq(LineEntry, lines)
  }

  /** The i-th outcome is the i-th line's update or error. */
  lemma OutcomeAt(lines: seq<string>, i: nat)
    requires i < |lines|
    ensures Outcomes(lines)[i] == LineEntry(lines[i])
  {
    MapSeqAt(LineEntry, lines, i);
  }

  /** The outcomes of two blocks of lines are the outcomes of each, in order. */
  lemma OutcomesAppend(a: seq<string>, b: seq<string>)
    ensures Outcomes(a + b) == Outcomes(a) + Outcomes(b)
  {
    MapSeqAppend(LineEntry, a, b);
  }
}
