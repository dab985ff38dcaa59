/**
 * The logger decorator of src/utils/test_closure.rs. The Logger trait has
 * the two implementations of that file, so a logger is a value of a closed
 * datatype, and what a call of `log` writes to standard error is the
 * sequence of records it returns. `log` takes `&self`: as a function of the
 * logger value it cannot change the logger.
 */
module Logging {
  import opened Decimal

  datatype Logger =
    | StderrLogger
    | Filter(inner: Logger, accepts: (u8, string) -> bool)

  /** `Filter::new`. */
  function NewFilter(inner: Logger, accepts: (u8, string) -> bool): (f: Logger)
    ensures f.Filter? && f.inner == inner && f.accepts == accepts
  {
    Filter(inner, accepts)
  }

  /** The record `eprintln!("verbosity={verbosity}: {message}")` writes, without its line break. */
  function StderrRecord(verbosity: u8, message: string): (r: string)
    ensures |r| == |"verbosity="| + |DecimalString(verbosity)| + 2 + |message|
    ensures r[..10] == "verbosity=" && r[|r| - |message|..] == message
  {
    "verbosity=" + DecimalString(verbosity) + ": " + message
  }

  /** The records `logger.log(verbosity, message)` writes. */
  function Log(logger: Logger, verbosity: u8, message: string): (records: seq<string>)
    ensures |records| <= 1
    ensures logger.StderrLogger? ==> records == [StderrRecord(verbosity, message)]
    decreases logger
  {
    match logger
    case StderrLogger => [StderrRecord(verbosity, message)]
    case Filter(inner, accepts) =>
      if accepts(verbosity, message) then Log(inner, verbosity, message) else []
  }

  /** A filter forwards the unaltered call exactly when its predicate holds, and writes nothing otherwise. */
  lemma FilterLog(inner: Logger, accepts: (u8, string) -> bool, verbosity: u8, message: string)
    ensures accepts(verbosity, message) ==>
      Log(NewFilter(inner, accepts), verbosity, message) == Log(inner, verbosity, message)
    ensures !accepts(verbosity, message) ==> Log(NewFilter(inner, accepts), verbosity, message) == []
  {
  }

  /** A filter around a filter forwards to the innermost logger exactly when both predicates hold. */
  lemma NestedFilterLog(inner: Logger, p: (u8, string) -> bool, q: (u8, string) -> bool, verbosity: u8, message: string)
    ensures Log(Filter(Filter(inner, p), q), verbosity, message) ==
      if q(verbosity, message) && p(verbosity, message) then Log(inner, verbosity, message) else []
  {
  }

  /** Every predicate on the chain of filters holds for the call. */
  predicate Passes(logger: Logger, verbosity: u8, message: string)
    decreases logger
  {
    match logger
    case StderrLogger => true
    case Filter(inner, accepts) => accepts(verbosity, message) && Passes(inner, verbosity, message)
  }

  /** Any stack of filters writes the one stderr record exactly when all its predicates pass, and nothing otherwise. */
  lemma {:induction false} FilterChainLog(logger: Logger, verbosity: u8, message: string)
    ensures Log(logger, verbosity, message) ==
      if Passes(logger, verbosity, message) then [StderrRecord(verbosity, message)] else []
    decreases logger
  {
    match logger
    case StderrLogger =>
    case Filter(inner, accepts) =>
      FilterChainLog(inner, verbosity, message);
  }

  /** A record determines the verbosity and the message that produced it. */
  lemma StderrRecordInjective(v1: u8, m1: string, v2: u8, m2: string)
    requires StderrRecord(v1, m1) == StderrRecord(v2, m2)
    ensures v1 == v2 && m1 == m2
  {
    var d1, d2 := DecimalString(v1), DecimalString(v2);
    var prefix := "verbosity=";
    var r1, r2 := d1 + ": " + m1, d2 + ": " + m2;
    assert StderrRecord(v1, m1) == prefix + r1;
    assert StderrRecord(v2, m2) == prefix + r2;
    assert r1 == r2 by {
      assert r1 == (prefix + r1)[|prefix|..];
      assert r2 == (prefix + r2)[|prefix|..];
    }
    assert |d1| == |d2| by {
      assert r1[|d1|] == ':' && r2[|d2|] == ':';
    }
    assert d1 == r1[..|d1|] == r2[..|d2|] == d2;
    DecimalStringInjective(v1, v2);
    assert m1 == r1[|d1| + 2..] == r2[|d2| + 2..] == m2;
  }
}
