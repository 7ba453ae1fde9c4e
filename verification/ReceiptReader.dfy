/**
 * Reading a cost receipt through a file system that may read short or fail at any
 * call (scripts/verify-cost-model.ts, readReceiptBytes). A run of the file system is
 * a script of its answers, so a claim over all scripts is a claim over all runs.
 */
module ReceiptReader {
  import opened Wrappers

  newtype byte = x: int | 0 <= x < 256

  const MAX_SAFE_INTEGER := 9_007_199_254_740_991

  datatype Code = Unreadable | TooLarge | OtherCode(code: string)

  /** An exception: the verifier's own, which keeps its code, or a foreign one. */
  datatype Thrown = Verifier(code: Code) | Foreign

  datatype Outcome<+T> = Returns(value: T) | Throws(thrown: Thrown)

  datatype Size = Bytes(n: int) | NotAnInteger

  datatype Stat = Stat(isFile: bool, size: Size)

  /** What the file system answers: delivers(k) is the most the k-th read will deliver. */
  datatype Script = Script(
    content: seq<byte>,
    open: Outcome<()>,
    before: Outcome<Stat>,
    delivers: nat -> Outcome<nat>,
    after: Outcome<Stat>,
    close: Outcome<()>)

  /** A read never delivers more than was asked for, nor bytes the file does not have. */
  function Delivered(script: Script, most: nat, length: nat, position: nat): nat {
    var available := if position < |script.content| then |script.content| - position else 0;
    var wanted := if most < length then most else length;
    if wanted < available then wanted else available
  }

  /** One descriptor; the preconditions forbid any use of it before open or after close. */
  class ReceiptFile {
    const script: Script
    var wasOpened: bool
    var wasClosed: bool
    var statCalls: nat
    var readCalls: nat

    constructor (script: Script)
      ensures this.script == script && !wasOpened && !wasClosed && statCalls == 0 && readCalls == 0
    {
      this.script := script;
      wasOpened, wasClosed, statCalls, readCalls := false, false, 0, 0;
    }

    method Open() returns (r: Outcome<()>)
      requires !wasOpened && !wasClosed
      modifies this
      ensures r == script.open && wasOpened == r.Returns?
      ensures unchanged(`wasClosed) && unchanged(`statCalls) && unchanged(`readCalls)
    {
      wasOpened := script.open.Returns?;
      r := script.open;
    }

    method Fstat() returns (r: Outcome<Stat>)
      requires wasOpened && !wasClosed
      modifies `statCalls
      ensures r == (if old(statCalls) == 0 then script.before else script.after)
      ensures statCalls == old(statCalls) + 1
    {
      r := if statCalls == 0 then script.before else script.after;
      statCalls := statCalls + 1;
    }

    method Read(buffer: array<byte>, offset: nat, length: nat, position: nat) returns (r: Outcome<nat>)
      requires wasOpened && !wasClosed && offset + length <= buffer.Length
      modifies `readCalls, buffer
      ensures readCalls == old(readCalls) + 1
      ensures match script.delivers(old(readCalls))
              case Throws(t) => r == Throws(t)
              case Returns(most) => r == Returns(Delivered(script, most, length, position))
      ensures forall i :: 0 <= i < buffer.Length ==>
                buffer[i] == (if r.Returns? && offset <= i < offset + r.value
                              then script.content[position + i - offset] else old(buffer[i]))
    {
      var answer := script.delivers(readCalls);
      readCalls := readCalls + 1;
      match answer {
        case Throws(t) => r := Throws(t);
        case Returns(most) =>
          var n := Delivered(script, most, length, position);
          forall i | 0 <= i < n {
            buffer[offset + i] := script.content[position + i];
          }
          r := Returns(n);
      }
    }

    method Close() returns (r: Outcome<()>)
      requires wasOpened && !wasClosed
      modifies `wasClosed
      ensures r == script.close && wasClosed
    {
      wasClosed := true;
      r := script.close;
    }
  }

  // ----- what a run amounts to

  predicate Acceptable(stat: Stat) {
    stat.isFile && stat.size.Bytes? && 0 <= stat.size.n <= MAX_SAFE_INTEGER
  }

  /** The first failure among the reads from the k-th on, if there is one. */
  function ReadFailure(script: Script, k: nat, offset: nat, size: nat): Option<Thrown>
    decreases size - offset
  {
    if offset >= size then None
    else
      match script.delivers(k)
      case Throws(t) => Some(t)
      case Returns(most) =>
        var n := Delivered(script, most, size - offset, offset);
        if n == 0 then Some(Verifier(Unreadable)) else ReadFailure(script, k + 1, offset + n, size)
  }

  /** The first failure between open and close, in the order the calls are made. */
  function BodyFailure(script: Script, limit: nat): Option<Thrown> {
    match script.before
    case Throws(t) => Some(t)
    case Returns(before) =>
      if !Acceptable(before) then Some(Verifier(Unreadable))
      else if before.size.n > limit then Some(Verifier(TooLarge))
      else
        var failure := ReadFailure(script, 0, 0, before.size.n);
        if failure.Some? then failure
        else
          match script.after
          case Throws(t) => Some(t)
          case Returns(after) =>
            if !after.isFile || after.size != before.size then Some(Verifier(Unreadable)) else None
  }

  function CodeOf(t: Thrown): Code {
    match t
    case Verifier(code) => code
    case Foreign => Unreadable
  }

  /** A failure to close counts only when nothing failed before it. */
  function FirstFailure(script: Script, limit: nat): Option<Thrown> {
    if script.open.Throws? then Some(script.open.thrown)
    else
      var failure := BodyFailure(script, limit);
      if failure.Some? then failure
      else if script.close.Throws? then Some(script.close.thrown) else None
  }

  method ReadBody(file: ReceiptFile, limit: nat) returns (bytes: array?<byte>, failure: Option<Thrown>)
    requires file.wasOpened && !file.wasClosed && file.statCalls == 0 && file.readCalls == 0
    modifies file`statCalls, file`readCalls
    ensures failure == BodyFailure(file.script, limit)
    ensures failure.None? ==>
              && bytes != null && fresh(bytes)
              && file.script.before.value.size.n <= |file.script.content|
              && bytes[..] == file.script.content[..file.script.before.value.size.n]
  {
    bytes := null;
    var before := file.Fstat();
    if before.Throws? {
      return null, Some(before.thrown);
    }
    if !Acceptable(before.value) {
      return null, Some(Verifier(Unreadable));
    }
    var size := before.value.size.n;
    if size > limit {
      return null, Some(Verifier(TooLarge));
    }
    var buffer := new byte[size];
    var offset := 0;
    while offset < size
      invariant 0 <= offset <= size && offset <= |file.script.content|
      invariant file.wasOpened && !file.wasClosed && file.statCalls == 1
      invariant buffer[..offset] == file.script.content[..offset]
      invariant ReadFailure(file.script, 0, 0, size) == ReadFailure(file.script, file.readCalls, offset, size)
      decreases size - offset
    {
      var read := file.Read(buffer, offset, size - offset, offset);
      if read.Throws? {
        return null, Some(read.thrown);
      }
      if read.value == 0 {
        return null, Some(Verifier(Unreadable));
      }
      offset := offset + read.value;
    }
    var after := file.Fstat();
    if after.Throws? {
      return null, Some(after.thrown);
    }
    if !after.value.isFile || after.value.size != before.value.size {
      return null, Some(Verifier(Unreadable));
    }
    bytes, failure := buffer, None;
  }

  /** The descriptor is closed exactly when it was opened, and once, on every path. */
  method ReadReceiptBytes(file: ReceiptFile, limit: nat) returns (r: Result<array<byte>, Code>)
    requires !file.wasOpened && !file.wasClosed && file.statCalls == 0 && file.readCalls == 0
    modifies file
    ensures file.wasClosed == file.wasOpened == file.script.open.Returns?
    ensures match FirstFailure(file.script, limit)
            case Some(Verifier(code)) => r == Err(code)
            case Some(Foreign) => r == Err(Unreadable)
            case None =>
              && r.Ok? && fresh(r.value)
              && file.script.before.value.size.n <= |file.script.content|
              && r.value[..] == file.script.content[..file.script.before.value.size.n]
  {
    var wasOpened := file.Open();
    if wasOpened.Throws? {
      return Err(CodeOf(wasOpened.thrown));
    }
    var bytes, failure := ReadBody(file, limit);
    var wasClosed := file.Close();
    if failure.None? && wasClosed.Throws? {
      failure := Some(wasClosed.thrown);
    }
    if failure.Some? {
      return Err(CodeOf(failure.value));
    }
    r := Ok(bytes);
  }

  // ----- what success and failure say about the run

  /** The first k reads, by how far they take the reader. */
  function OffsetAfter(script: Script, size: nat, k: nat): (offset: nat)
    ensures offset <= size
  {
    if k == 0 then 0
    else
      var offset := OffsetAfter(script, size, k - 1);
      match script.delivers(k - 1)
      case Throws(_) => offset
      case Returns(most) => offset + Delivered(script, most, size - offset, offset)
  }

  predicate Progresses(script: Script, size: nat, k: nat) {
    script.delivers(k).Returns? && OffsetAfter(script, size, k) < OffsetAfter(script, size, k + 1)
  }

  /** The n-th read is the first that fails: it throws, or delivers nothing. */
  predicate FailsAt(script: Script, size: nat, n: nat, t: Thrown) {
    && OffsetAfter(script, size, n) < size
    && (forall i :: 0 <= i < n ==> Progresses(script, size, i))
    && match script.delivers(n)
       case Throws(u) => t == u
       case Returns(_) => t == Verifier(Unreadable) && !Progresses(script, size, n)
  }

  /** The first n reads each deliver something, and together the whole size. */
  predicate Completes(script: Script, size: nat, n: nat) {
    OffsetAfter(script, size, n) == size && forall i :: 0 <= i < n ==> Progresses(script, size, i)
  }

  lemma {:induction false} ReadsFrom(script: Script, size: nat, k: nat) returns (n: nat)
    requires forall i :: 0 <= i < k ==> Progresses(script, size, i)
    ensures match ReadFailure(script, k, OffsetAfter(script, size, k), size)
            case None => Completes(script, size, n)
            case Some(t) => FailsAt(script, size, n, t)
    decreases size - OffsetAfter(script, size, k)
  {
    var offset := OffsetAfter(script, size, k);
    n := k;
    if offset < size && script.delivers(k).Returns? {
      if Delivered(script, script.delivers(k).value, size - offset, offset) > 0 {
        n := ReadsFrom(script, size, k + 1);
      }
    }
  }

  lemma {:induction false} OffsetWithinFile(script: Script, size: nat, n: nat)
    ensures n == 0 || (forall i :: 0 <= i < n ==> Progresses(script, size, i)) ==>
              OffsetAfter(script, size, n) <= |script.content|
  {
    if n > 0 {
      OffsetWithinFile(script, size, n - 1);
    }
  }

  lemma FailingReadStops(script: Script, size: nat, n: nat, t: Thrown)
    requires FailsAt(script, size, n, t)
    ensures !Progresses(script, size, n)
  {
  }

  /** Only one of the two happens, and at one place. */
  lemma {:induction false} ReadsAgree(script: Script, size: nat, n: nat, k: nat, t: Thrown)
    requires FailsAt(script, size, n, t)
    ensures !Completes(script, size, k)
  {
    FailingReadStops(script, size, n, t);
    if k <= n {
      OffsetMonotone(script, size, k, n);
    }
  }

  lemma {:induction false} OffsetMonotone(script: Script, size: nat, i: nat, j: nat)
    requires i <= j
    ensures OffsetAfter(script, size, i) <= OffsetAfter(script, size, j)
  {
    if i < j {
      OffsetMonotone(script, size, i, j - 1);
    }
  }

  /**
   * Bytes come back exactly when open, both stats, enough reads and close all succeeded
   * on a regular file of an acceptable, unchanged size; the file then has those bytes.
   */
  lemma ReceiptReadExactly(script: Script, limit: nat)
    ensures FirstFailure(script, limit).None? <==>
            && script.open.Returns? && script.close.Returns?
            && script.before.Returns? && Acceptable(script.before.value) && script.before.value.size.n <= limit
            && script.after.Returns? && script.after.value.isFile && script.after.value.size == script.before.value.size
            && exists n :: Completes(script, script.before.value.size.n, n)
    ensures FirstFailure(script, limit).None? ==> script.before.value.size.n <= |script.content|
  {
    if script.before.Returns? && Acceptable(script.before.value) {
      var size: nat := script.before.value.size.n;
      var n := ReadsFrom(script, size, 0);
      OffsetWithinFile(script, size, n);
      if ReadFailure(script, 0, 0, size).Some? {
        forall k ensures !Completes(script, size, k) {
          ReadsAgree(script, size, n, k, ReadFailure(script, 0, 0, size).value);
        }
      }
    }
  }

  /** When nothing failed earlier, the error of a read is that of the first read that fails. */
  lemma FirstReadFailureDecides(script: Script, limit: nat, n: nat, t: Thrown)
    requires script.open.Returns? && script.before.Returns? && Acceptable(script.before.value)
    requires script.before.value.size.n <= limit && FailsAt(script, script.before.value.size.n, n, t)
    ensures FirstFailure(script, limit) == Some(t)
  {
    var size: nat := script.before.value.size.n;
    var k := ReadsFrom(script, size, 0);
    if ReadFailure(script, 0, 0, size).None? {
      ReadsAgree(script, size, n, k, t);
    } else {
      FailingReadStops(script, size, n, t);
      FailingReadStops(script, size, k, ReadFailure(script, 0, 0, size).value);
    }
  }

  // ----- every failure, by its stage

  /** The descriptor is of a regular file whose size is a safe integer. */
  predicate Readable(before: Stat) {
    before.isFile && before.size.Bytes? && 0 <= before.size.n < 9_007_199_254_740_992
  }

  /** What is thrown by the first of the calls and checks that fails, in the order in which they are made. */
  ghost predicate FailsWith(script: Script, limit: nat, t: Thrown) {
    match script.open
    case Throws(u) => t == u
    case Returns(_) =>
      match script.before
      case Throws(u) => t == u
      case Returns(before) =>
        if !Readable(before) then t == Verifier(Unreadable)
        else if before.size.n > limit then t == Verifier(TooLarge)
        else if exists n, u :: FailsAt(script, before.size.n, n, u) then exists n :: FailsAt(script, before.size.n, n, t)
        else
          match script.after
          case Throws(u) => t == u
          case Returns(after) =>
            if !after.isFile || after.size != before.size then t == Verifier(Unreadable)
            else script.close == Throws(t)
  }

  lemma BodyFailsWith(script: Script, limit: nat)
    requires script.open.Returns? && script.before.Returns? && Readable(script.before.value) && script.before.value.size.n <= limit
    ensures match ReadFailure(script, 0, 0, script.before.value.size.n)
            case Some(t) => exists n :: FailsAt(script, script.before.value.size.n, n, t)
            case None => forall n, t :: !FailsAt(script, script.before.value.size.n, n, t)
  {
    var size: nat := script.before.value.size.n;
    var k := ReadsFrom(script, size, 0);
    if ReadFailure(script, 0, 0, size).None? {
      forall n, t ensures !FailsAt(script, size, n, t) {
        if FailsAt(script, size, n, t) {
          ReadsAgree(script, size, n, k, t);
        }
      }
    }
  }

  /** The failure reported is the first one, and it is reported whatever closing does. */
  lemma FailsWithExactly(script: Script, limit: nat, t: Thrown)
    ensures FirstFailure(script, limit) == Some(t) <==> FailsWith(script, limit, t)
  {
    if script.open.Returns? && script.before.Returns? && Readable(script.before.value) && script.before.value.size.n <= limit {
      BodyFailsWith(script, limit);
      if n :| FailsAt(script, script.before.value.size.n, n, t) {
        FirstReadFailureDecides(script, limit, n, t);
      }
    }
    hide ReadFailure, FailsAt;
  }
}
