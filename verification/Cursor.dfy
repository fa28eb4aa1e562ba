/** Enumerating the rows of an execution result. */
module Cursors {
  import opened Decimal

  /** The driver's result: the rows the server sent. */
  class Rows<Row> {
    const rows: seq<Row>

    constructor (rows: seq<Row>)
      ensures this.rows == rows
    {
      this.rows := rows;
    }
  }

  class RowIterator<Row> {
    const result: Rows<Row>
    var index: int

    constructor (result: Rows<Row>, index: int)
      ensures this.result == result && this.index == index
    {
      this.result, this.index := result, index;
    }

    method Increment()
      modifies this`index
      ensures index == old(index) + 1
    {
      index := index + 1;
    }

    /** Equal only on the very same result object, whatever the rows are. */
    predicate Equals(other: RowIterator<Row>)
      reads this, other
    {
      result == other.result && index == other.index
    }

    /** The driver's checked access: None where it raises. */
    method Dereference() returns (r: Option<Row>)
      ensures r == if 0 <= index < |result.rows| then Some(result.rows[index]) else None
    {
      if index < 0 || index >= |result.rows| {
        return None;
      }
      r := Some(result.rows[index]);
    }
  }

  class ExecutionResult<Row> {
    const result: Rows<Row>

    constructor (result: Rows<Row>)
      ensures this.result == result
    {
      this.result := result;
    }

    method At(offset: int) returns (r: Option<Row>)
      ensures r == if 0 <= offset < |result.rows| then Some(result.rows[offset]) else None
    {
      if offset < 0 || offset >= |result.rows| {
        return None;
      }
      r := Some(result.rows[offset]);
    }

    method Begin() returns (i: RowIterator<Row>)
      ensures fresh(i) && i.result == result && i.index == 0
    {
      i := new RowIterator(result, 0);
    }

    method End() returns (i: RowIterator<Row>)
      ensures fresh(i) && i.result == result && i.index == |result.rows|
    {
      i := new RowIterator(result, |result.rows|);
    }
  }

  /** The range loop of a cursor: it ends, no access raises, and it visits every row once, in order. */
  method Enumerate<Row>(exec: ExecutionResult<Row>) returns (visited: seq<Row>, raised: bool)
    ensures visited == exec.result.rows && !raised
  {
    visited, raised := [], false;
    var it := exec.Begin();
    var end := exec.End();
    while !it.Equals(end)
      invariant it.result == end.result == exec.result && end.index == |exec.result.rows|
      invariant fresh(it) && fresh(end) && it != end
      invariant 0 <= it.index <= end.index && visited == exec.result.rows[..it.index] && !raised
      decreases end.index - it.index
    {
      var row := it.Dereference();
      match row
      case None => return visited, true;
      case Some(r) => visited := visited + [r];
      it.Increment();
    }
  }
}
