/**
 An insert inside a caller's transaction (`auth/savepoint.go`): it runs under a
 savepoint, with a limit the database itself enforces, and every statement of it
 can fail in every way a database or a connection can fail it.
 */
module Savepoint {
  import opened Options

  type Row = string

  datatype Dialect = Postgres | MySQL | SQLite

  /** `statement_timeout` on PostgreSQL (milliseconds); the two lock waits on MySQL (seconds). */
  datatype Limits = Limits(statement: nat, innodb: nat, lock: nat)

  /** What the transaction has written, and the limits its next statement runs under. */
  datatype Work = Work(rows: seq<Row>, limits: Limits)

  datatype Mark = Mark(name: string, work: Work)

  /**
   No transaction; one that accepts statements; one PostgreSQL has aborted, which
   accepts only a rollback to a savepoint; one that is over, rolled back as a whole
   by the database or gone with its connection.
   */
  datatype Tx =
    | Auto(work: Work)
    | Open(work: Work, marks: seq<Mark>)
    | Aborted(marks: seq<Mark>)
    | Over

  datatype Statement =
    | MakeSavepoint(name: string)
    | RollbackTo(name: string)
    | ReadLimits
    | SetLimits(limits: Limits)
    | Write(row: Row)

  /** The statement alone fails, the database rolls the whole transaction back, or the connection drops. */
  datatype Fault = NoFault | Refused | TurnedBack | Dropped

  /** The marks that are not called `name`. */
  function Others(marks: seq<Mark>, name: string): seq<Mark> {
    if marks == [] then []
    else
      var last := marks[|marks| - 1];
      Others(marks[..|marks| - 1], name) + if last.name == name then [] else [last]
  }

  /** The marks up to and including the last called `name`; none if there is none. */
  function UpTo(marks: seq<Mark>, name: string): (r: seq<Mark>)
    ensures r != [] ==> r <= marks && r[|r| - 1].name == name
  {
    if marks == [] || marks[|marks| - 1].name == name then marks
    else UpTo(marks[..|marks| - 1], name)
  }

  /** MySQL replaces a savepoint of the same name; the others keep both. */
  function Marked(dialect: Dialect, marks: seq<Mark>, mark: Mark): seq<Mark> {
    (if dialect.MySQL? then Others(marks, mark.name) else marks) + [mark]
  }

  function LimitsSet(dialect: Dialect, was: Limits, next: Limits): Limits {
    match dialect
    case Postgres => was.(statement := next.statement)
    case MySQL => was.(innodb := next.innodb, lock := next.lock)
    case SQLite => was
  }

  /** A rollback to a mark undoes PostgreSQL's local setting, not MySQL's session variables. */
  function Undone(dialect: Dialect, limits: Limits, mark: Work): Work {
    if dialect.Postgres? then mark else Work(mark.rows, limits)
  }

  /** What the statement does when nothing goes wrong; none when the transaction does not accept it. */
  function Effect(dialect: Dialect, tx: Tx, s: Statement): Option<Tx> {
    match tx
    case Over => None
    case Auto(work) => if s.Write? then Some(Auto(work.(rows := work.rows + [s.row]))) else None
    case Aborted(marks) =>
      if s.RollbackTo? && UpTo(marks, s.name) != [] then
        var kept := UpTo(marks, s.name);
        Some(Open(kept[|kept| - 1].work, kept))
      else None
    case Open(work, marks) =>
      match s
      case MakeSavepoint(name) => Some(Open(work, Marked(dialect, marks, Mark(name, work))))
      case RollbackTo(name) =>
        var kept := UpTo(marks, name);
        if kept == [] then None else Some(Open(Undone(dialect, work.limits, kept[|kept| - 1].work), kept))
      case ReadLimits => Some(tx)
      case SetLimits(limits) => Some(tx.(work := work.(limits := LimitsSet(dialect, work.limits, limits))))
      case Write(row) => Some(tx.(work := work.(rows := work.rows + [row])))
  }

  /** A failed statement aborts PostgreSQL's transaction and leaves the others' as it was. */
  function Failed(dialect: Dialect, tx: Tx): Tx {
    if dialect.Postgres? && tx.Open? then Aborted(tx.marks) else tx
  }

  predicate Fails(dialect: Dialect, tx: Tx, s: Statement, fault: Fault) {
    !fault.NoFault? || Effect(dialect, tx, s).None?
  }

  function Step(dialect: Dialect, tx: Tx, s: Statement, fault: Fault): Tx {
    if fault.TurnedBack? && !tx.Auto? then Over
    else if fault.Dropped? then Over
    else if Fails(dialect, tx, s, fault) then Failed(dialect, tx)
    else Effect(dialect, tx, s).value
  }

  /** `s` takes the transaction from `tx` to `next`, and reports `ok`, when `fault` strikes it. */
  predicate Strikes(dialect: Dialect, tx: Tx, s: Statement, fault: Fault, next: Tx, ok: bool) {
    next == Step(dialect, tx, s, fault) && ok == !Fails(dialect, tx, s, fault)
  }

  // The limit the database can be given.

  const MILLISECOND := 1_000_000
  const SECOND := 1_000_000_000

  /** The limit `boundStatements` sets with `left` nanoseconds to the deadline, if the database can express it. */
  function LimitFor(dialect: Dialect, left: int, margin: int): (r: Option<Limits>)
    ensures r.Some? && dialect.Postgres? ==>
      && r.value.statement >= 1
      && r.value.statement * MILLISECOND <= left - margin < (r.value.statement + 1) * MILLISECOND
    ensures r.Some? && dialect.MySQL? ==>
      && r.value.innodb == r.value.lock >= 1
      && r.value.lock * SECOND <= left - margin < (r.value.lock + 1) * SECOND
    ensures r.None? <==> dialect.SQLite? || left - margin < if dialect.Postgres? then MILLISECOND else SECOND
  {
    match dialect
    case SQLite => None
    case Postgres =>
      if left - margin < MILLISECOND then None else Some(Limits((left - margin) / MILLISECOND, 0, 0))
    case MySQL =>
      if left - margin < SECOND then None
      else var seconds := (left - margin) / SECOND; Some(Limits(0, seconds, seconds))
  }

  /** The transaction is still the one it was, with the marks it had, or over. */
  ghost predicate Within(tx: Tx, was: Tx)
    requires was.Open?
  {
    match tx
    case Open(_, marks) => marks == was.marks
    case Aborted(marks) => marks == was.marks
    case Over => true
    case Auto(_) => false
  }

  datatype Restore = Nothing | Put(previous: Limits)

  /** `Lost` is an error that carries `errTransactionLost`. */
  datatype Result = Fine | Failure | Lost

  lemma {:induction false} OthersAgain(marks: seq<Mark>, name: string)
    ensures Others(Others(marks, name), name) == Others(marks, name)
  {
    if marks != [] {
      var last := marks[|marks| - 1];
      var rest := Others(marks[..|marks| - 1], name);
      OthersAgain(marks[..|marks| - 1], name);
      if last.name != name {
        assert (rest + [last])[..|rest|] == rest;
      } else {
        assert rest + [] == rest;
      }
    }
  }

  /** Making a savepoint and rolling back to it leaves the caller's other savepoints alone. */
  lemma MarkedReturns(dialect: Dialect, marks: seq<Mark>, mark: Mark)
    ensures UpTo(Marked(dialect, marks, mark), mark.name) == Marked(dialect, marks, mark)
    ensures Others(Marked(dialect, marks, mark), mark.name) == Others(marks, mark.name)
  {
    var kept := if dialect.MySQL? then Others(marks, mark.name) else marks;
    assert (kept + [mark])[..|kept|] == kept;
    OthersAgain(marks, mark.name);
  }

  /** Go's integer division, toward zero. */
  function Quotient(a: int, b: int): (q: int)
    requires b > 0
    ensures a >= 0 ==> q * b <= a < (q + 1) * b
    ensures a <= 0 ==> (q - 1) * b < a <= q * b
  {
    if a >= 0 then a / b else -(-a / b)
  }

  /** A row as it was written, and the limits its statement ran under. */
  datatype Written = Written(row: Row, limits: Limits)

  function AllUnder(rows: seq<Row>, limits: Limits): (r: seq<Written>)
    ensures |r| == |rows| && forall k | 0 <= k < |r| :: r[k] == Written(rows[k], limits)
  {
    if rows == [] then [] else AllUnder(rows[..|rows| - 1], limits) + [Written(rows[|rows| - 1], limits)]
  }

  /** Since `before`, some first rows of `rows` have been written, each under `limits`. */
  ghost predicate LoggedUnder(before: seq<Written>, log: seq<Written>, rows: seq<Row>, limits: Limits) {
    && before <= log
    && |log| - |before| <= |rows|
    && forall k | |before| <= k < |log| :: log[k] == Written(rows[k - |before|], limits)
  }

  /** The limits an insert runs under: with a budget those of what is left of it, less the fifth kept for the
      rollback, with half of that fifth as margin, if the database can express them; else the caller's. */
  function LimitsDuring(dialect: Dialect, was: Limits, budget: Option<int>, elapsed: nat): Limits {
    if budget.None? then was
    else
      var reserve := Quotient(budget.value, 5);
      var limit := LimitFor(dialect, budget.value - reserve - elapsed, Quotient(reserve, 2));
      if limit.None? then was else LimitsSet(dialect, was, limit.value)
  }

  /** A second's budget leaves PostgreSQL 700 milliseconds, and MySQL, which counts seconds, its own limits;
      two seconds leave MySQL one. */
  lemma SecondsBudget(was: Limits)
    ensures LimitsDuring(Postgres, was, Some(SECOND), 0) == was.(statement := 700)
    ensures LimitsDuring(MySQL, was, Some(SECOND), 0) == was
    ensures LimitsDuring(MySQL, was, Some(2 * SECOND), 0) == was.(innodb := 1, lock := 1)
  {
  }

  /** Everything tried since `before` succeeded. */
  ghost predicate AllWell(before: seq<bool>, tried: seq<bool>) {
    forall k | |before| <= k < |tried| :: tried[k]
  }

  lemma WellSplits(before: seq<bool>, between: seq<bool>, tried: seq<bool>)
    requires before <= between <= tried
    ensures before <= tried
    ensures AllWell(before, tried) <==> AllWell(before, between) && AllWell(between, tried)
  {
    assert forall k | |before| <= k < |between| :: between[k] == tried[k];
  }

  class Database {
    const dialect: Dialect
    const inTransaction: bool
    var tx: Tx
    /** The rows written, and, statement by statement, what succeeded; an error of the insert's own counts as one. */
    ghost var log: seq<Written>
    ghost var tried: seq<bool>

    constructor (dialect: Dialect, inTransaction: bool, tx: Tx)
      requires tx.Over? || (inTransaction <==> !tx.Auto?)
      ensures this.dialect == dialect && this.inTransaction == inTransaction && this.tx == tx && Valid()
      ensures log == [] && tried == []
    {
      this.dialect, this.inTransaction, this.tx := dialect, inTransaction, tx;
      log, tried := [], [];
    }

    ghost predicate Valid()
      reads this
    {
      tx.Over? || (inTransaction <==> !tx.Auto?)
    }

    /** Any statement can fail, in any way. */
    method Exec(s: Statement) returns (ok: bool)
      requires Valid()
      modifies this`tx, this`log, this`tried
      ensures Valid()
      ensures exists fault :: Strikes(dialect, old(tx), s, fault, tx, ok)
      ensures ok && s.Write? ==>
        (old(tx).Open? || old(tx).Auto?) && log == old(log) + [Written(s.row, old(tx.work.limits))]
      ensures !ok || !s.Write? ==> log == old(log)
      ensures tried == old(tried) + [ok] && tried[|tried| - 1] == ok
    {
      var fault: Fault :| true;
      ok := !Fails(dialect, tx, s, fault);
      tried := tried + [ok];
      if ok && s.Write? {
        log := log + [Written(s.row, tx.work.limits)];
      }
      tx := Step(dialect, tx, s, fault);
      assert Strikes(dialect, old(tx), s, fault, tx, ok);
    }

    /** `boundStatements`: the database's own limit for what follows, and what puts the previous one back. */
    method BoundStatements(left: int, margin: int) returns (ok: bool, restore: Restore)
      requires Valid()
      modifies this`tx, this`log, this`tried
      ensures Valid()
      ensures ok && old(tx).Open? ==>
        && tx.Open? && tx.marks == old(tx.marks) && tx.work.rows == old(tx.work.rows)
        && Puts(restore, tx.work.limits) == old(tx.work.limits)
        && (LimitFor(dialect, left, margin).None? <==> restore.Nothing?)
        && (restore.Put? ==>
              tx.work.limits == LimitsSet(dialect, old(tx.work.limits), LimitFor(dialect, left, margin).value))
      ensures !ok ==> restore.Nothing? && (old(tx).Open? && tx.Open? ==> tx == old(tx))
      ensures log == old(log)
      ensures old(tried) <= tried && (ok <==> AllWell(old(tried), tried))
      ensures old(tx).Open? ==> Within(tx, old(tx))
    {
      restore := Nothing;
      if dialect.SQLite? {
        return true, restore;
      }
      ok := Exec(ReadLimits);
      if !ok {
        return;
      }
      var previous := if tx.Open? then tx.work.limits else Limits(0, 0, 0);
      var limit := LimitFor(dialect, left, margin);
      if limit.None? {
        return;
      }
      ok := Exec(SetLimits(limit.value));
      if ok {
        restore := Put(previous);
      }
    }

    method PutBack(restore: Restore) returns (ok: bool)
      requires Valid()
      modifies this`tx, this`log, this`tried
      ensures Valid()
      ensures ok && old(tx).Open? ==>
        tx == old(tx).(work := old(tx.work).(limits := Puts(restore, old(tx.work.limits))))
      ensures old(tx).Open? ==> Within(tx, old(tx)) && (tx.Open? ==> tx.work.rows == old(tx.work.rows))
      ensures !ok && old(tx).Open? && tx.Open? ==> !dialect.Postgres? && tx == old(tx)
      ensures log == old(log)
      ensures old(tried) <= tried && (ok <==> AllWell(old(tried), tried))
      ensures restore.Put? ==> tried == old(tried) + [ok]
      ensures restore.Nothing? ==> ok && tried == old(tried)
    {
      if restore.Nothing? {
        return true;
      }
      ok := Exec(SetLimits(restore.previous));
    }

    /** The caller's insert: its statements in turn, and an error of its own if it likes. */
    method Insert(rows: seq<Row>) returns (ok: bool)
      requires Valid()
      modifies this`tx, this`log, this`tried
      ensures Valid()
      ensures ok && (old(tx).Open? || old(tx).Auto?) ==>
        tx == old(tx).(work := old(tx.work).(rows := old(tx.work.rows) + rows))
      ensures old(tx).Open? ==> Within(tx, old(tx)) && (tx.Open? ==>
        old(tx.work.rows) <= tx.work.rows && tx.work.limits == old(tx.work.limits))
      ensures old(tx).Open? || old(tx).Auto? ==> LoggedUnder(old(log), log, rows, old(tx.work.limits))
      ensures ok && (old(tx).Open? || old(tx).Auto?) ==> log == old(log) + AllUnder(rows, old(tx.work.limits))
      ensures old(tried) <= tried && (ok <==> AllWell(old(tried), tried))
    {
      ok := WriteRows(rows);
      if ok {
        ok := *;
        if !ok {
          tried := tried + [false];
          assert !tried[|tried| - 1];
        }
      }
    }

    method WriteRows(rows: seq<Row>) returns (ok: bool)
      requires Valid()
      modifies this`tx, this`log, this`tried
      ensures Valid()
      ensures ok && (old(tx).Open? || old(tx).Auto?) ==>
        tx == old(tx).(work := old(tx.work).(rows := old(tx.work.rows) + rows))
      ensures old(tx).Open? ==> Within(tx, old(tx)) && (tx.Open? ==>
        old(tx.work.rows) <= tx.work.rows && tx.work.limits == old(tx.work.limits))
      ensures old(tx).Open? || old(tx).Auto? ==> LoggedUnder(old(log), log, rows, old(tx.work.limits))
      ensures ok && (old(tx).Open? || old(tx).Auto?) ==> log == old(log) + AllUnder(rows, old(tx.work.limits))
      ensures old(tried) <= tried && (ok <==> AllWell(old(tried), tried))
    {
      ok := true;
      var k := 0;
      while k < |rows|
        invariant 0 <= k <= |rows| && ok && Valid() && old(tried) <= tried && AllWell(old(tried), tried)
        invariant old(tx).Open? || old(tx).Auto? ==>
          && tx == old(tx).(work := old(tx.work).(rows := old(tx.work.rows) + rows[..k]))
          && log == old(log) + AllUnder(rows[..k], old(tx.work.limits))
      {
        ok := Exec(Write(rows[k]));
        if !ok {
          return;
        }
        assert rows[..k + 1] == rows[..k] + [rows[k]];
        k := k + 1;
      }
      assert rows[..k] == rows;
    }

    /** Since the savepoint was made at `marked`, the work has only grown, and `restore` knows its limits. */
    ghost predicate Recoverable(marked: Tx, restore: Restore)
      requires marked.Open?
      reads this
    {
      && Within(tx, marked)
      && (restore.Put? ==> LimitsSet(dialect, marked.work.limits, restore.previous) == marked.work.limits)
      && (tx.Open? ==> marked.work.rows <= tx.work.rows && Puts(restore, tx.work.limits) == marked.work.limits)
    }

    /** The bound, the insert and the restore: what runs between the savepoint and its end. */
    method WorkUnder(budget: Option<int>, elapsed: nat, rows: seq<Row>) returns (ok: bool, restore: Restore)
      requires Valid() && tx.Open?
      modifies this`tx, this`log, this`tried
      ensures Valid() && Recoverable(old(tx), restore)
      ensures ok ==> tx == old(tx).(work := old(tx.work).(rows := old(tx.work.rows) + rows))
      ensures var limits := LimitsDuring(dialect, old(tx.work.limits), budget, elapsed);
              && LoggedUnder(old(log), log, rows, limits)
              && (ok ==> log == old(log) + AllUnder(rows, limits))
      ensures old(tried) <= tried && (ok <==> AllWell(old(tried), tried))
    {
      ok, restore := true, Nothing;
      if budget.Some? {
        var reserve := Quotient(budget.value, 5);
        ok, restore := BoundStatements(budget.value - reserve - elapsed, Quotient(reserve, 2));
      }
      if ok {
        ok := Insert(rows);
        if ok {
          ok := PutBack(restore);
        }
      }
    }

    /** Back to the savepoint, and to the limits the rollback does not undo. */
    method Recover(name: string, restore: Restore, ghost marked: Tx) returns (r: Result)
      requires Valid() && marked.Open? && Recoverable(marked, restore)
      requires UpTo(marked.marks, name) == marked.marks != []
      requires marked.marks[|marked.marks| - 1].work == marked.work
      modifies this`tx, this`log, this`tried
      ensures Valid() && !r.Fine?
      ensures r.Failure? ==> tx == marked
      ensures r.Lost? && tx.Open? ==> !dialect.Postgres? && marked.work.rows <= tx.work.rows
      ensures !tx.Open? ==> r.Lost?
      ensures log == old(log)
      ensures old(tried) < tried && (r.Lost? <==> !tried[|tried| - 1])
    {
      var ok := Exec(RollbackTo(name));
      if !ok {
        return Lost;
      }
      ok := PutBack(restore);
      r := if ok then Failure else Lost;
    }

    /**
     `insertUnderSavepoint`. `budget` is a best-effort write's time to its deadline;
     `elapsed` what has passed of it when the limit is computed.
     */
    method InsertUnderSavepoint(name: string, budget: Option<int>, elapsed: nat, rows: seq<Row>) returns (r: Result)
      requires Valid()
      modifies this`tx, this`log, this`tried
      ensures Valid()
      ensures !inTransaction ==> !r.Lost?
      ensures !inTransaction && old(tx).Auto? && r.Fine? ==>
        tx == Auto(old(tx.work).(rows := old(tx.work.rows) + rows))
      ensures inTransaction && !old(tx).Open? ==> r.Lost?
      ensures old(tx).Open? && r.Fine? ==>
        && tx.Open? && tx.work == old(tx.work).(rows := old(tx.work.rows) + rows)
        && Others(tx.marks, name) == Others(old(tx.marks), name)
      ensures old(tx).Open? && r.Failure? ==>
        && tx.Open? && tx.work == old(tx.work)
        && Others(tx.marks, name) == Others(old(tx.marks), name)
      ensures old(tx).Open? && r.Lost? && tx.Open? ==> !dialect.Postgres? && old(tx.work.rows) <= tx.work.rows
      ensures inTransaction && !tx.Open? ==> r.Lost?
      ensures old(tx).Open? ==>
        var limits := LimitsDuring(dialect, old(tx.work.limits), budget, elapsed);
        && LoggedUnder(old(log), log, rows, limits)
        && (r.Fine? ==> log == old(log) + AllUnder(rows, limits))
      ensures !inTransaction && old(tx).Auto? ==> LoggedUnder(old(log), log, rows, old(tx.work.limits))
      ensures old(tried) <= tried && (r.Fine? <==> AllWell(old(tried), tried))
      ensures inTransaction ==> old(tried) < tried && (r.Lost? <==> !tried[|tried| - 1])
    {
      if !inTransaction {
        var ok := Insert(rows);
        return if ok then Fine else Failure;
      }
      if tx.Open? {
        MarkedReturns(dialect, tx.marks, Mark(name, tx.work));
      }
      var ok := Exec(MakeSavepoint(name));
      if !ok {
        return Lost;
      }
      ghost var marked, begun := tx, tried;
      var restore;
      ok, restore := WorkUnder(budget, elapsed, rows);
      WellSplits(old(tried), begun, tried);
      if ok {
        return Fine;
      }
      ghost var worked := tried;
      r := Recover(name, restore, marked);
      WellSplits(old(tried), worked, tried);
    }

    /** What the restore makes of the limits. */
    function Puts(restore: Restore, limits: Limits): Limits {
      match restore
      case Nothing => limits
      case Put(previous) => LimitsSet(dialect, limits, previous)
    }
  }
}
