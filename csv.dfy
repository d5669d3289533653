/** The result file (initCSVWriter and writeCSV in main.go): a header row,
    then one row per model of every host result handed to the writer.
    Floating-point text (`%.0f`, `%.1f`) is not rendered: such a cell keeps
    the number and the precision it would be printed with. */
module CsvOutput {
  import Decimal

  datatype Cell = Text(s: string) | Formatted(x: real, precision: nat)

  type Record = seq<Cell>

  /** One benchmarked model of a host, as the result handler receives it. */
  datatype ModelResult = ModelResult(
    name: string,
    status: string,
    firstTokenDelay: int,   // a time.Duration, in nanoseconds
    tokensPerSec: real)

  /** Everything found on one host. */
  datatype ScanResult = ScanResult(ip: string, models: seq<ModelResult>)

  const BaseColumns: seq<string> := ["IP address", "Port", "Model name", "Status"]
  const BenchColumns: seq<string> := ["First token delay (ms)", "Tokens/s"]

  function TextCells(names: seq<string>): (cells: Record)
    ensures |cells| == |names|
    ensures forall k :: 0 <= k < |names| ==> cells[k] == Text(names[k])
  {
    if names == [] then [] else TextCells(names[..|names| - 1]) + [Text(names[|names| - 1])]
  }

  /** The header initCSVWriter writes: four columns, and the two benchmark
      columns after them unless benchmarking is disabled. */
  function Header(disableBench: bool): (h: Record)
    ensures |h| == if disableBench then 4 else 6
    ensures h[..4] == TextCells(BaseColumns)
    ensures !disableBench ==> h[4..] == TextCells(BenchColumns)
  {
    if disableBench then TextCells(BaseColumns) else TextCells(BaseColumns) + TextCells(BenchColumns)
  }

  /** The row writeCSV writes for one model of a host: the address, the port
      in decimal, the model name and its status, then, unless benchmarking
      is disabled, the delay in milliseconds and the rate. Every row is as
      wide as the header. */
  function Row(ip: string, port: int, m: ModelResult, disableBench: bool): (r: Record)
    ensures |r| == |Header(disableBench)|
    ensures r[..4] == [Text(ip), Text(Decimal.Format(port)), Text(m.name), Text(m.status)]
    ensures !disableBench ==>
      r[4] == Formatted((m.firstTokenDelay as real) / 1_000_000.0, 0) && r[5] == Formatted(m.tokensPerSec, 1)
  {
    var base := [Text(ip), Text(Decimal.Format(port)), Text(m.name), Text(m.status)];
    if disableBench then base
    else base + [Formatted((m.firstTokenDelay as real) / 1_000_000.0, 0), Formatted(m.tokensPerSec, 1)]
  }

  /** The rows of one host result: one per model, in the order of the models. */
  function Rows(ip: string, models: seq<ModelResult>, port: int, disableBench: bool): (rows: seq<Record>)
    ensures |rows| == |models|
    ensures forall k :: 0 <= k < |models| ==> rows[k] == Row(ip, port, models[k], disableBench)
  {
    if models == [] then []
    else Rows(ip, models[..|models| - 1], port, disableBench) + [Row(ip, port, models[|models| - 1], disableBench)]
  }

  /** The csv.Writer of the run, reduced to the records written so far. */
  class CsvSink {
    const port: int
    const disableBench: bool
    var records: seq<Record>

    /** The header is the first record, and every record after it is as
        wide as the header. */
    ghost predicate Valid()
      reads this
    {
      && |records| >= 1
      && records[0] == Header(disableBench)
      && forall k :: 1 <= k < |records| ==> |records[k]| == |records[0]|
    }

    /** initCSVWriter (main.go:226-239) once the file is created. */
    constructor (port: int, disableBench: bool)
      ensures Valid()
      ensures this.port == port && this.disableBench == disableBench
      ensures records == [Header(disableBench)]
    {
      this.port := port;
      this.disableBench := disableBench;
      records := [Header(disableBench)];
    }

    /** writeCSV (main.go:349-360). */
    method WriteResult(res: ScanResult)
      requires Valid()
      modifies this
      ensures Valid()
      ensures records == old(records) + Rows(res.ip, res.models, port, disableBench)
    {
      var n := 0;
      while n < |res.models|
        invariant 0 <= n <= |res.models|
        invariant Valid()
        invariant records == old(records) + Rows(res.ip, res.models[..n], port, disableBench)
      {
        var model := res.models[n];
        var record := [Text(res.ip), Text(Decimal.Format(port)), Text(model.name), Text(model.status)];
        if !disableBench {
          record := record + [
            Formatted((model.firstTokenDelay as real) / 1_000_000.0, 0),
            Formatted(model.tokensPerSec, 1)];
        }
        records := records + [record];
        assert res.models[..n + 1][..n] == res.models[..n];
        n := n + 1;
      }
      assert res.models[..n] == res.models;
    }
  }
}
