/** Table rendering (click_extra/tabulate.py): the list of output formats, the
    parsing of CSV format identifiers, the vertical layout, the defaults passed to
    the tabulate library, and the `--table-format` option whose callback installs
    the renderer for the chosen format on the context. */
module Tabulate {
  import opened Wrappers
  import opened Strings
  import opened Sorting
  import Cli

  datatype TableError =
    | NotCsvFormat(formatId: string)   // a failed assertion in the dialect parser
    | EmptyHeaders                     // `max` over no headers
    | NoFormat                         // `None.startswith`: the option's value was None

  /** The context key the option stores the chosen format under. */
  const TableFormatKey: string := "click_extra.table_format"

  /** The dialect of a bare `csv`, as in Python's csv module. */
  const DefaultDialect: string := "excel"

  /** The default value of the `--table-format` option. */
  const DefaultTableFormat: string := "rounded_outline"

  // ---------------------------------------------------------- output formats

  /** `[f"csv-{d}" for d in dialects]`. */
  function CsvFormats(dialects: seq<string>): (r: seq<string>)
    ensures |r| == |dialects|
    ensures forall i :: 0 <= i < |r| ==> r[i] == "csv-" + dialects[i]
  {
    if dialects == [] then [] else ["csv-" + dialects[0]] + CsvFormats(dialects[1..])
  }

  /** Every supported format: the tabulate library's, `csv` and `vertical`, and
      one `csv-<dialect>` per registered CSV dialect, in sorted order. */
  function OutputFormats(tableFormats: seq<string>, dialects: seq<string>): (r: seq<string>)
    ensures Sorted(r)
    ensures multiset(r) == multiset(tableFormats + ["csv", "vertical"] + CsvFormats(dialects))
  {
    Sort(tableFormats + ["csv", "vertical"] + CsvFormats(dialects))
  }

  lemma {:induction false} CsvFormatsMembers(dialects: seq<string>)
    ensures forall d :: d in dialects ==> "csv-" + d in CsvFormats(dialects)
    ensures forall f :: f in CsvFormats(dialects) ==> exists d :: d in dialects && f == "csv-" + d
  {
    var r := CsvFormats(dialects);
    forall d | d in dialects ensures "csv-" + d in r {
      var i :| 0 <= i < |dialects| && dialects[i] == d;
      assert r[i] == "csv-" + d;
    }
    forall f | f in r ensures exists d :: d in dialects && f == "csv-" + d {
      var i :| 0 <= i < |r| && r[i] == f;
      assert dialects[i] in dialects;
    }
  }

  lemma MembersOfThree(r: seq<string>, a: seq<string>, b: seq<string>, c: seq<string>)
    requires multiset(r) == multiset(a + b + c)
    ensures forall f :: f in r <==> f in a || f in b || f in c
  {
    forall f ensures f in r <==> f in a || f in b || f in c {
      assert f in r <==> f in multiset(r);
      assert f in a + b + c <==> f in multiset(a + b + c);
    }
  }

  lemma ListsAll(r: seq<string>, tableFormats: seq<string>, x: string, y: string, csvs: seq<string>)
    requires multiset(r) == multiset(tableFormats + [x, y] + csvs)
    ensures x in r && y in r
    ensures forall f :: f in tableFormats ==> f in r
    ensures forall f :: f in csvs ==> f in r
  {
    MembersOfThree(r, tableFormats, [x, y], csvs);
  }

  lemma ListsOnly(r: seq<string>, tableFormats: seq<string>, x: string, y: string, csvs: seq<string>, f: string)
    requires multiset(r) == multiset(tableFormats + [x, y] + csvs)
    requires f in r
    ensures f in tableFormats || f == x || f == y || f in csvs
  {
    MembersOfThree(r, tableFormats, [x, y], csvs);
  }

  /** The format list offers every tabulate format, `csv`, `vertical` and one
      `csv-<dialect>` per dialect. */
  lemma OutputFormatsListsEveryFormat(tableFormats: seq<string>, dialects: seq<string>)
    ensures "csv" in OutputFormats(tableFormats, dialects)
    ensures "vertical" in OutputFormats(tableFormats, dialects)
    ensures forall f :: f in tableFormats ==> f in OutputFormats(tableFormats, dialects)
    ensures forall d :: d in dialects ==> "csv-" + d in OutputFormats(tableFormats, dialects)
  {
    ListsAll(OutputFormats(tableFormats, dialects), tableFormats, "csv", "vertical", CsvFormats(dialects));
    CsvFormatsMembers(dialects);
  }

  /** ... and nothing else. */
  lemma OutputFormatsListsNothingElse(tableFormats: seq<string>, dialects: seq<string>, f: string)
    requires f in OutputFormats(tableFormats, dialects)
    ensures f in tableFormats || f == "csv" || f == "vertical" || exists d :: d in dialects && f == "csv-" + d
  {
    ListsOnly(OutputFormats(tableFormats, dialects), tableFormats, "csv", "vertical", CsvFormats(dialects), f);
    CsvFormatsMembers(dialects);
  }

  // ------------------------------------------------------------- CSV dialect

  /** Where the first dash of a `csv...` identifier falls decides the split. */
  lemma CsvIdSplit(formatId: string)
    requires "csv" <= formatId
    ensures SplitOnce(formatId, "-")[0] == "csv" <==> formatId == "csv" || "csv-" <= formatId
    ensures "csv-" <= formatId ==> SplitOnce(formatId, "-") == ["csv", formatId[4..]]
    ensures formatId == "csv" ==> SplitOnce(formatId, "-") == ["csv"]
  {
    assert forall j :: 0 <= j < 3 ==> !OccursAt(formatId, "-", j) by {
      forall j | 0 <= j < 3 ensures !OccursAt(formatId, "-", j) {
        assert formatId[j..j + 1] == [formatId[j]];
        assert formatId[j] == "csv"[j];
      }
    }
    var parts := SplitOnce(formatId, "-");
    if "csv-" <= formatId {
      assert formatId[3..4] == "-";
      SplitOnceAt(formatId, "-", 3);
      assert formatId[..3] == "csv";
    } else if formatId != "csv" {
      assert |formatId| > 3 && formatId[3] != '-';
      assert formatId[3..4] == [formatId[3]];
    }
  }

  /** Extracts and checks the CSV dialect of a format identifier: `csv` stands
      for the default dialect, `csv-<dialect>` names one, anything else fails. */
  function GetCsvDialect(formatId: string): (r: Result<string, TableError>)
    ensures r.Success? <==> formatId == "csv" || "csv-" <= formatId
    ensures formatId == "csv" ==> r == Success(DefaultDialect)
    ensures "csv-" <= formatId ==> r == Success(formatId[4..])
  {
    if !("csv" <= formatId) then Failure(NotCsvFormat(formatId))
    else
      CsvIdSplit(formatId);
      var parts := SplitOnce(formatId, "-");
      if parts[0] != "csv" then Failure(NotCsvFormat(formatId))
      else if |parts| > 1 then Success(parts[1])
      else Success(DefaultDialect)
  }

  // ------------------------------------------------------------ dispatching

  /** The renderer `init_formatter` binds for a format: the CSV check comes first,
      then the vertical layout, then the tabulate library for every other name. */
  function SelectRenderer(value: string): (r: Result<Cli.TableRenderer, TableError>)
    ensures (r.Success? && r.value.VerticalRenderer?) <==> value == "vertical"
    ensures (r.Success? && r.value.TabulateRenderer?) <==> !("csv" <= value) && value != "vertical"
    ensures r.Success? && r.value.TabulateRenderer? ==> r.value.tablefmt == value
    ensures r.Failure? <==> "csv" <= value && value != "csv" && !("csv-" <= value)
    ensures r.Success? && r.value.CsvRenderer? ==>
      r.value.dialect == if value == "csv" then DefaultDialect else value[4..]
  {
    if "csv" <= value then
      assert value[0] == 'c' && "vertical"[0] == 'v';
      match GetCsvDialect(value)
      case Success(d) => Success(Cli.CsvRenderer(d))
      case Failure(e) => Failure(e)
    else if value == "vertical" then Success(Cli.VerticalRenderer)
    else Success(Cli.TabulateRenderer(value))
  }

  /** Every listed format gets a renderer, provided no tabulate format name starts
      with `csv`; a dialect format gets the CSV writer with its own dialect. */
  lemma EveryOutputFormatHasRenderer(tableFormats: seq<string>, dialects: seq<string>, f: string)
    requires forall g :: g in tableFormats ==> !("csv" <= g)
    requires f in OutputFormats(tableFormats, dialects)
    ensures SelectRenderer(f).Success?
    ensures forall d :: d in dialects && f == "csv-" + d ==> SelectRenderer(f) == Success(Cli.CsvRenderer(d))
  {
    OutputFormatsListsNothingElse(tableFormats, dialects, f);
    forall d | d in dialects && f == "csv-" + d
      ensures SelectRenderer(f) == Success(Cli.CsvRenderer(d))
    {
      assert "csv-" <= f && f[4..] == d;
    }
  }

  /** The callback of the `--table-format` option: records the chosen format in
      the context, then installs its renderer; an identifier that starts with
      `csv` but is not a CSV format fails after the format was recorded. */
  method InitFormatter(ctx: Cli.Context, value: Option<string>) returns (raised: Option<TableError>)
    modifies ctx`meta, ctx`printTable
    ensures ctx.meta == old(ctx.meta)[TableFormatKey := value]
    ensures value.None? ==> raised == Some(NoFormat)
    ensures value.Some? ==> (raised.None? <==> SelectRenderer(value.value).Success?)
    ensures value.Some? && raised.Some? ==> raised.value == SelectRenderer(value.value).error
    ensures ctx.printTable == if raised.None? then Some(SelectRenderer(value.value).value) else old(ctx.printTable)
  {
    ctx.meta := ctx.meta[TableFormatKey := value];
    if value.None? {
      return Some(NoFormat);
    }
    var renderer := SelectRenderer(value.value);
    if renderer.Failure? {
      return Some(renderer.error);
    }
    ctx.printTable := Some(renderer.value);
    raised := None;
  }

  // -------------------------------------------------------- vertical layout

  function Min(a: int, b: int): int
  {
    if a < b then a else b
  }

  /** `max(len(h) for h in headers)`; Python raises on no headers. */
  function MaxLen(headers: seq<string>): (r: nat)
    requires headers != []
    ensures forall i :: 0 <= i < |headers| ==> |headers[i]| <= r
    ensures exists i :: 0 <= i < |headers| && |headers[i]| == r
  {
    if |headers| == 1 then |headers[0]|
    else
      var m := MaxLen(headers[1..]);
      if |headers[0]| < m then m else |headers[0]|
  }

  /** Every header left-justified to the width of the longest. */
  function Padded(headers: seq<string>): (r: seq<string>)
    requires headers != []
    ensures |r| == |headers|
    ensures forall i :: 0 <= i < |r| ==> |r[i]| == MaxLen(headers) && headers[i] <= r[i]
    ensures forall i, k :: 0 <= i < |r| && |headers[i]| <= k < |r[i]| ==> r[i][k] == ' '
  {
    var width := MaxLen(headers);
    seq(|headers|, i requires 0 <= i < |headers| => PadRight(headers[i], width))
  }

  /** The width of the star runs around a row banner, fixed by the cli-helpers
      layout this one reproduces. */
  const BannerStars: nat := 27

  /** The line that opens the block of the row at `index` (counted from 0). */
  function Banner(index: nat): string
  {
    Repeat('*', BannerStars) + "[ " + NatToString(index + 1) + ". row ]" + Repeat('*', BannerStars)
  }

  /** A banner is a run of stars, `[ `, the row's 1-based number in decimal,
      `. row ]` and the same run of stars. */
  lemma BannerNumbersRow(index: nat)
    ensures var b := Banner(index);
      var digits := |b| - 2 * BannerStars - 9;
      && digits >= 1
      && b[..BannerStars] == Repeat('*', BannerStars)
      && b[|b| - BannerStars..] == Repeat('*', BannerStars)
      && b[BannerStars..BannerStars + 2] == "[ "
      && DecimalValue(b[BannerStars + 2..BannerStars + 2 + digits]) == index + 1
      && b[BannerStars + 2 + digits..|b| - BannerStars] == ". row ]"
  {
    var stars := Repeat('*', BannerStars);
    var number := NatToString(index + 1);
    var b := Banner(index);
    assert b == stars + "[ " + number + ". row ]" + stars;
    NatToStringRoundTrip(index + 1);
    assert b[..BannerStars] == stars;
    assert b[|b| - BannerStars..] == stars;
    assert b[BannerStars..BannerStars + 2] == "[ ";
    assert b[BannerStars + 2..BannerStars + 2 + |number|] == number;
    assert b[BannerStars + 2 + |number|..|b| - BannerStars] == ". row ]";
  }

  /** One `label | value` line per cell, as far as the shorter of the two goes. */
  function CellLines(labels: seq<string>, row: seq<string>): (r: seq<string>)
    ensures |r| == Min(|labels|, |row|)
    ensures forall k :: 0 <= k < |r| ==> r[k] == labels[k] + " | " + row[k]
    decreases |row|
  {
    if labels == [] || row == [] then []
    else [labels[0] + " | " + row[0]] + CellLines(labels[1..], row[1..])
  }

  lemma CellLinesAre(lines: seq<string>, labels: seq<string>, row: seq<string>)
    requires |lines| == Min(|labels|, |row|)
    requires forall k :: 0 <= k < |lines| ==> lines[k] == labels[k] + " | " + row[k]
    ensures lines == CellLines(labels, row)
  {
  }

  lemma CellLinesSnoc(labels: seq<string>, row: seq<string>, k: nat)
    requires k < Min(|labels|, |row|)
    ensures CellLines(labels[..k + 1], row[..k + 1]) == CellLines(labels[..k], row[..k]) + [labels[k] + " | " + row[k]]
  {
    CellLinesAre(CellLines(labels[..k], row[..k]) + [labels[k] + " | " + row[k]], labels[..k + 1], row[..k + 1]);
  }

  function RowBlock(index: nat, labels: seq<string>, row: seq<string>): seq<string>
  {
    [Banner(index)] + CellLines(labels, row)
  }

  /** The lines the vertical layout echoes for `rows`, block after block. */
  function VerticalLines(rows: seq<seq<string>>, labels: seq<string>): seq<string>
  {
    if rows == [] then []
    else VerticalLines(rows[..|rows| - 1], labels) + RowBlock(|rows| - 1, labels, rows[|rows| - 1])
  }

  lemma {:induction false} VerticalLinesPrefix(rows: seq<seq<string>>, labels: seq<string>, i: nat)
    requires i <= |rows|
    ensures VerticalLines(rows[..i], labels) <= VerticalLines(rows, labels)
    decreases |rows|
  {
    if i == |rows| {
      assert rows[..i] == rows;
    } else {
      var init := rows[..|rows| - 1];
      VerticalLinesPrefix(init, labels, i);
      assert init[..i] == rows[..i];
    }
  }

  lemma VerticalLinesSnoc(rows: seq<seq<string>>, labels: seq<string>, i: nat)
    requires i < |rows|
    ensures VerticalLines(rows[..i + 1], labels) == VerticalLines(rows[..i], labels) + RowBlock(i, labels, rows[i])
  {
    var upto := rows[..i + 1];
    assert upto[..|upto| - 1] == rows[..i];
  }

  lemma SliceOfPrefix(out: seq<string>, before: seq<string>, block: seq<string>)
    requires before + block <= out
    ensures out[|before|..|before| + |block|] == block
  {
    assert out[|before|..|before| + |block|] == (before + block)[|before|..];
  }

  /** The block of row `i` (its banner, then its cell lines) sits in the output
      right after the blocks of the rows before it. */
  lemma RowBlockInOutput(rows: seq<seq<string>>, labels: seq<string>, i: nat)
    requires i < |rows|
    ensures var at := |VerticalLines(rows[..i], labels)|;
      var block := RowBlock(i, labels, rows[i]);
      var out := VerticalLines(rows, labels);
      && at + |block| <= |out|
      && out[at..at + |block|] == block
  {
    VerticalLinesSnoc(rows, labels, i);
    VerticalLinesPrefix(rows, labels, i + 1);
    SliceOfPrefix(VerticalLines(rows, labels), VerticalLines(rows[..i], labels), RowBlock(i, labels, rows[i]));
  }

  /** The inner loop of the vertical layout: one `label | value` line per cell. */
  method AppendCellLines(lines: seq<string>, labels: seq<string>, row: seq<string>) returns (out: seq<string>)
    ensures out == lines + CellLines(labels, row)
  {
    out := lines;
    var n := Min(|labels|, |row|);
    var k := 0;
    while k < n
      invariant k <= n
      invariant out == lines + CellLines(labels[..k], row[..k])
    {
      CellLinesSnoc(labels, row, k);
      out := out + [labels[k] + " | " + row[k]];
      k := k + 1;
    }
    CellLinesAre(CellLines(labels[..n], row[..n]), labels, row);
  }

  /** The vertical layout: a banner per row, then `label | value` per cell, the
      labels being the headers padded to a common width; no headers is an error. */
  method RenderVertical(rows: seq<seq<string>>, headers: seq<string>) returns (r: Result<seq<string>, TableError>)
    ensures r.Failure? <==> headers == []
    ensures r.Failure? ==> r.error == EmptyHeaders
    ensures r.Success? ==> r.value == VerticalLines(rows, Padded(headers))
  {
    if headers == [] {
      return Failure(EmptyHeaders);
    }
    var labels := Padded(headers);
    var lines: seq<string> := [];
    var index := 0;
    while index < |rows|
      invariant index <= |rows|
      invariant lines == VerticalLines(rows[..index], labels)
    {
      var block := AppendCellLines([Banner(index)], labels, rows[index]);
      lines := lines + block;
      VerticalLinesSnoc(rows, labels, index);
      index := index + 1;
    }
    assert rows[..index] == rows;
    return Success(lines);
  }

  // ---------------------------------------------------------- tabulate call

  /** A keyword argument value handed to the tabulate library. */
  datatype Arg = BoolArg(b: bool) | NoneArg | StrArg(s: string) | IntArg(i: int)

  /** The call made to the tabulate library: data, headers and keyword arguments. */
  datatype TabulateCall = TabulateCall(rows: seq<seq<string>>, headers: seq<string>, options: map<string, Arg>)

  /** Renders through the tabulate library with number parsing off and no
      numeric alignment, unless the caller passes those keywords itself. */
  method RenderTable(rows: seq<seq<string>>, headers: seq<string>, kwargs: map<string, Arg>) returns (call: TabulateCall)
    ensures call.rows == rows && call.headers == headers
    ensures call.options.Keys == kwargs.Keys + {"disable_numparse", "numalign"}
    ensures forall k :: k in kwargs ==> call.options[k] == kwargs[k]
    ensures "disable_numparse" !in kwargs ==> call.options["disable_numparse"] == BoolArg(true)
    ensures "numalign" !in kwargs ==> call.options["numalign"] == NoneArg
  {
    var defaults := map["disable_numparse" := BoolArg(true), "numalign" := NoneArg];
    defaults := defaults + kwargs;
    call := TabulateCall(rows, headers, defaults);
  }

  // ------------------------------------------------------------------ option

  /** The help text of the table format option. */
  const TableFormatHelp: string := "Rendering style of tables."

  class TableFormatOption {
    var paramDecls: seq<string>
    var paramType: Cli.ParamType
    var defaultValue: Option<string>
    var exposeValue: bool
    var help: string
    // None: the caller passed `callback=None`, and the option has no callback.
    var callback: Option<Cli.Callback>

    /** The `-t`/`--table-format` option. Unless the caller passes them, its type
        is a case-insensitive choice among the output formats, its default is
        `rounded_outline`, its value is not passed to the command, and it is
        bound to `InitFormatter`; a callback passed explicitly, even `None`, is
        kept. */
    constructor (
      paramDecls: seq<string>, paramType: Cli.Kwarg<Cli.ParamType>, defaultValue: Cli.Kwarg<Option<string>>,
      exposeValue: Cli.Kwarg<bool>, help: Cli.Kwarg<string>, callback: Cli.Kwarg<Option<Cli.Callback>>,
      tableFormats: seq<string>, dialects: seq<string>)
      ensures this.paramDecls == if paramDecls == [] then ["-t", "--table-format"] else paramDecls
      ensures paramType.Omitted? ==> this.paramType == Cli.Choice(OutputFormats(tableFormats, dialects), false)
      ensures paramType.Passed? ==> this.paramType == paramType.value
      ensures defaultValue.Omitted? ==> this.defaultValue == Some(DefaultTableFormat)
      ensures defaultValue.Passed? ==> this.defaultValue == defaultValue.value
      ensures this.exposeValue == (exposeValue.Passed? && exposeValue.value)
      ensures this.help == if help.Passed? then help.value else TableFormatHelp
      ensures callback.Omitted? ==> this.callback == Some(Cli.InitFormatter)
      ensures callback.Passed? ==> this.callback == callback.value
    {
      this.paramDecls := Cli.ParamDecls(paramDecls, ["-t", "--table-format"]);
      this.paramType := Cli.ValueOr(paramType, Cli.Choice(OutputFormats(tableFormats, dialects), false));
      this.defaultValue := Cli.ValueOr(defaultValue, Some(DefaultTableFormat));
      this.exposeValue := Cli.ValueOr(exposeValue, false);
      this.help := Cli.ValueOr(help, TableFormatHelp);
      this.callback := Cli.ValueOr(callback, Some(Cli.InitFormatter));
    }
  }
}
