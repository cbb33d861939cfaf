/** Complete transfers over a descriptor that moves data in pieces (atomicio.c).

The environment is a sequence of results of the read or write function.  An entry of the
vector is a base address and a length; it denotes that many cells of memory.  `log` collects
the cells in the order in which they were transferred, which serves both directions: writing
sends what the cells hold, reading fills them.
*/
module AtomicIo {
  import opened Bits

  datatype Iov = Iov(base: nat, len: nat)

  const IOV_MAX := 1024

  /** One call of the transfer function and of the progress callback after it: interrupted,
      would block, failed, end of file, or `n` bytes moved. */
  datatype Result = Interrupted(stop: bool) | Again | Failed | EndOfFile | Moved(n: nat, stop: bool)

  datatype Outcome = Done | Stopped | Eof | Error | Fault | Invalid | Pending

  function CellsOf(e: Iov): (s: seq<nat>)
    ensures |s| == e.len
  {
    seq(e.len, i requires 0 <= i < e.len => e.base + i)
  }

  /** The cells that a vector denotes, in order. */
  function Cells(v: seq<Iov>): seq<nat> { if v == [] then [] else CellsOf(v[0]) + Cells(v[1..]) }

  /** Advancing an entry drops its first cells. */
  lemma CellsAdvance(v: seq<Iov>, n: nat)
    requires v != [] && n <= v[0].len
    ensures |Cells(v)| >= n && Cells([Iov(v[0].base + n, v[0].len - n)] + v[1..]) == Cells(v)[n..]
  {
    var w := [Iov(v[0].base + n, v[0].len - n)] + v[1..];
    assert w[1..] == v[1..];
    var a, rest := CellsOf(v[0]), Cells(v[1..]);
    assert CellsOf(w[0]) == a[n..];
    assert (a + rest)[n..] == a[n..] + rest;
  }

  lemma CellsSkip(v: seq<Iov>)
    requires v != []
    ensures |Cells(v)| >= v[0].len && Cells(v[1..]) == Cells(v)[v[0].len..]
  {
  }

  /** Skips the entries of the vector that `n` bytes complete; `rem` bytes are left over. */
  method Skip(iov: array<Iov>, first: nat, n: nat) returns (next: nat, rem: nat)
    requires first <= iov.Length
    ensures first <= next <= iov.Length && rem <= n && n - rem <= |Cells(iov[first..])|
    ensures Cells(iov[next..]) == Cells(iov[first..])[n - rem..]
    ensures next < iov.Length ==> rem < iov[next].len
  {
    ghost var all := Cells(iov[first..]);
    next, rem := first, n;
    while next < iov.Length && rem >= iov[next].len
      invariant first <= next <= iov.Length && 0 <= rem <= n && n - rem <= |all|
      invariant Cells(iov[next..]) == all[n - rem..]
    {
      ghost var at, len := n - rem, iov[next].len;
      CellsSkip(iov[next..]);
      assert iov[next..][1..] == iov[next + 1..];
      assert all[at..][len..] == all[at + len..];
      rem := rem - iov[next].len;
      next := next + 1;
    }
  }

  /** Skips completed entries of the vector from `first` on, and shortens the first
      incomplete one in place, after `n` bytes. */
  method Advance(iov: array<Iov>, first: nat, n: nat) returns (next: nat, fault: bool)
    requires first <= iov.Length
    modifies iov
    ensures next <= iov.Length
    ensures fault <==> n > |Cells(old(iov[first..]))|
    ensures !fault ==> Cells(iov[next..]) == Cells(old(iov[first..]))[n..]
    ensures !fault && next < iov.Length ==> iov[next].len > 0
  {
    ghost var all := Cells(iov[first..]);
    var rem;
    next, rem := Skip(iov, first, n);
    ghost var left, at := iov[next..], n - rem;
    if rem > 0 && (next == iov.Length || rem > iov[next].len) { return next, true; }
    fault := false;
    if next == iov.Length { return; }
    CellsAdvance(left, rem);
    assert all[at..][rem..] == all[n..];
    iov[next] := Iov(iov[next].base + rem, iov[next].len - rem);
    assert iov[next..] == [iov[next]] + left[1..];
  }

  /** One successful transfer: the cells at the front of the vector join the log. */
  method Transfer(iov: array<Iov>, first: nat, log: seq<nat>, n: nat)
    returns (next: nat, fault: bool, more: seq<nat>)
    requires first <= iov.Length
    modifies iov
    ensures next <= iov.Length && (fault <==> n > |Cells(old(iov[first..]))|)
    ensures if fault then more == log
            else |more| == |log| + n && more + Cells(iov[next..]) == log + Cells(old(iov[first..]))
    ensures !fault && next < iov.Length ==> iov[next].len > 0
  {
    var rest := Cells(iov[first..]);
    next, fault := Advance(iov, first, n);
    more := log;
    if !fault {
      more := log + rest[..n];
      assert rest[..n] + rest[n..] == rest;
    }
  }

  /** How many bytes the transfers report in all. */
  function Moves(env: seq<Result>): nat
  {
    if env == [] then 0
    else Moves(env[..|env| - 1]) + if env[|env| - 1].Moved? then env[|env| - 1].n else 0
  }

  lemma MovesNext(env: seq<Result>, k: nat)
    requires k < |env|
    ensures Moves(env[..k + 1]) == Moves(env[..k]) + if env[k].Moved? then env[k].n else 0
  {
    assert env[..k + 1][..k] == env[..k];
  }

  /** How one result ends the transfer, or Pending when the loop goes on after it. */
  function Ending(r: Result): Outcome
  {
    match r
    case Interrupted(stop) => if stop then Stopped else Pending
    case Again => Pending
    case Failed => Error
    case EndOfFile => Eof
    case Moved(n, stop) => if n == 0 then Eof else if stop then Stopped else Pending
  }

  ghost predicate GoesOn(env: seq<Result>, used: nat)
  {
    used <= |env| && forall k :: 0 <= k < used ==> Ending(env[k]) == Pending
  }

  lemma GoesOnMore(env: seq<Result>, used: nat)
    requires GoesOn(env, used) && used < |env|
    ensures GoesOn(env, used + 1) <==> Ending(env[used]) == Pending
    ensures EndsAs(env, used + 1, Fault)
    ensures Ending(env[used]) != Pending ==> EndsAs(env, used + 1, Ending(env[used]))
  {
  }

  lemma GoesOnEnds(env: seq<Result>, used: nat)
    requires GoesOn(env, used)
    ensures EndsAs(env, used, Pending) && EndsAs(env, used, Done)
  {
  }

  /** The results before the last go on, and a transfer that ends early ends as the last says. */
  ghost predicate EndsAs(env: seq<Result>, used: nat, outcome: Outcome)
  {
    && used <= |env|
    && (forall k :: 0 <= k < used - 1 ==> Ending(env[k]) == Pending)
    && (outcome == Error || outcome == Eof || outcome == Stopped <==>
          used > 0 && Ending(env[used - 1]) != Pending && outcome != Fault)
    && (outcome == Error || outcome == Eof || outcome == Stopped ==> outcome == Ending(env[used - 1]))
  }

  /** The code stops at once when the first entry is empty. */
  predicate StartsEmpty(v: seq<Iov>) { v != [] && v[0].len == 0 }

  /** atomiciov6.  `pos` is the returned count, `log` the cells transferred, each transfer taking
      those at the front of the vector it was given, and `used` how many results were consumed. */
  method AtomicIoV(v: seq<Iov>, iovcnt: int, env: seq<Result>)
    returns (pos: nat, outcome: Outcome, log: seq<nat>, used: nat)
    requires iovcnt >= 0 ==> |v| == iovcnt
    ensures used <= |env| && log <= Cells(v)
    ensures outcome == Invalid <==> iovcnt < 0 || iovcnt > IOV_MAX
    ensures outcome == Fault <==> Moves(env[..used]) > |Cells(v)|
    ensures outcome != Fault ==> |log| == Moves(env[..used])
    ensures pos == if outcome == Error || outcome == Fault || outcome == Invalid then 0 else |log|
    ensures outcome == Done ==> log == if StartsEmpty(v) then [] else Cells(v)
    ensures outcome != Invalid && StartsEmpty(v) ==> outcome == Done
    ensures outcome == Pending ==> used == |env| && pos < |Cells(v)|
    ensures EndsAs(env, used, outcome)
  {
    pos, log, outcome, used := 0, [], Pending, 0;
    if iovcnt < 0 || iovcnt > IOV_MAX { return 0, Invalid, [], 0; }
    var iov := new Iov[|v|](i requires 0 <= i < |v| => v[i]);
    assert iov[..] == v && iov[0..] == v;
    var first := 0;
    ghost var all := Cells(v);
    while first < iov.Length && iov[first].len > 0
      invariant 0 <= first <= iov.Length && 0 <= used <= |env| && outcome == Pending && fresh(iov)
      invariant GoesOn(env, used)
      invariant pos == |log| == Moves(env[..used]) && log + Cells(iov[first..]) == all
      invariant !StartsEmpty(v) && first < iov.Length ==> iov[first].len > 0
      invariant StartsEmpty(v) ==> log == [] && first < iov.Length && iov[first].len == 0
      decreases |env| - used
    {
      assert iov[first..][0].len > 0;
      GoesOnEnds(env, used);
      if used == |env| { return; }
      MovesNext(env, used);
      GoesOnMore(env, used);
      var res := env[used];
      used := used + 1;
      match res {
        case Interrupted(stop) => if stop { outcome := Stopped; return; }
        case Again =>
        case Failed => return 0, Error, log, used;
        case EndOfFile => outcome := Eof; return;
        case Moved(n, stop) =>
          if n == 0 { outcome := Eof; return; }
          pos := pos + n;
          var fault;
          first, fault, log := Transfer(iov, first, log, n);
          if fault { return 0, Fault, log, used; }
          if stop { outcome := Stopped; return; }
      }
    }
    GoesOnEnds(env, used);
    outcome := Done;
  }

  /** A vector that starts with an empty entry: the byte after it is never moved, yet the
      transfer counts as complete. */
  method EmptyFirstEntry(env: seq<Result>) returns (pos: nat, outcome: Outcome)
    ensures pos == 0 && outcome == Done && Cells([Iov(0, 0), Iov(0, 1)]) == [0]
  {
    var v := [Iov(0, 0), Iov(0, 1)];
    assert v[1..][0] == Iov(0, 1) && v[1..][1..] == [];
    assert Cells(v[1..]) == [0];
    var log, used;
    pos, outcome, log, used := AtomicIoV(v, 2, env);
  }

  /** atomicio6 on n bytes.  Call number k of the transfer function is given the bytes from
      asked[k] on.  A function that reports more than it was asked for makes the count exceed n. */
  method AtomicIo6(n: nat, env: seq<Result>) returns (pos: nat, outcome: Outcome, asked: seq<nat>)
    ensures |asked| <= |env|
    ensures forall k :: 0 <= k < |asked| ==> asked[k] == Moves(env[..k]) < n
    ensures outcome != Fault && outcome != Invalid
    ensures pos == if outcome == Error then 0 else Moves(env[..|asked|])
    ensures outcome == Done <==> outcome != Error && outcome != Stopped && outcome != Eof && n <= pos
    ensures outcome == Pending ==> |asked| == |env| && pos < n
    ensures EndsAs(env, |asked|, outcome)
  {
    pos, asked, outcome := 0, [], Pending;
    while n > pos
      invariant |asked| <= |env| && outcome == Pending && pos == Moves(env[..|asked|])
      invariant GoesOn(env, |asked|)
      invariant forall k :: 0 <= k < |asked| ==> asked[k] == Moves(env[..k]) < n
      decreases |env| - |asked|
    {
      if |asked| == |env| { return; }
      MovesNext(env, |asked|);
      var res := env[|asked|];
      asked := asked + [pos];
      match res {
        case Interrupted(stop) => if stop { outcome := Stopped; return; }
        case Again =>
        case Failed => return 0, Error, asked;
        case EndOfFile => outcome := Eof; return;
        case Moved(k, stop) =>
          if k == 0 { outcome := Eof; return; }
          pos := pos + k;
          if stop { outcome := Stopped; return; }
      }
    }
    outcome := Done;
  }

  // ----- what a log of cells means for writing and for reading

  predicate InMemory(cells: seq<nat>, mem: seq<byte>) { forall k :: 0 <= k < |cells| ==> cells[k] < |mem| }

  /** The bytes that writing the cells sends. */
  function Sent(cells: seq<nat>, mem: seq<byte>): (s: seq<byte>)
    requires InMemory(cells, mem)
    ensures |s| == |cells|
  {
    seq(|cells|, k requires 0 <= k < |cells| => mem[cells[k]])
  }

  /** The memory after reading `data` into the cells. */
  function Filled(cells: seq<nat>, mem: seq<byte>, data: seq<byte>): (r: seq<byte>)
    requires InMemory(cells, mem) && |data| == |cells|
    ensures |r| == |mem|
  {
    if cells == [] then mem
    else
      var n := |cells| - 1;
      Filled(cells[..n], mem, data[..n])[cells[n] := data[n]]
  }

  predicate Distinct(cells: seq<nat>) { forall i, j :: 0 <= i < j < |cells| ==> cells[i] != cells[j] }

  /** What has been written is the beginning of what the vector held, in order. */
  lemma WritesPrefix(log: seq<nat>, v: seq<Iov>, mem: seq<byte>)
    requires log <= Cells(v) && InMemory(Cells(v), mem)
    ensures Sent(log, mem) == Sent(Cells(v), mem)[..|log|]
  {
    assert log == Cells(v)[..|log|];
  }

  /** What has been read stands at the beginning of the vector, in order, and the rest of the
      vector and of memory is as it was, when no cell is listed twice. */
  lemma {:induction false} ReadsPrefix(log: seq<nat>, mem: seq<byte>, data: seq<byte>, x: nat)
    requires InMemory(log, mem) && Distinct(log) && |data| == |log| && x < |mem|
    ensures forall k :: 0 <= k < |log| ==> Filled(log, mem, data)[log[k]] == data[k]
    ensures x !in log ==> Filled(log, mem, data)[x] == mem[x]
    decreases |log|
  {
    if log != [] {
      var n := |log| - 1;
      ReadsPrefix(log[..n], mem, data[..n], x);
      assert forall k :: 0 <= k < n ==> log[..n][k] == log[k] && data[..n][k] == data[k] && log[k] != log[n];
    }
  }

  /** Reading into a vector fills its front and keeps its back. */
  lemma ReadFillsVector(log: seq<nat>, v: seq<Iov>, mem: seq<byte>, data: seq<byte>)
    requires log <= Cells(v) && InMemory(Cells(v), mem) && Distinct(Cells(v)) && |data| == |log|
    ensures Sent(Cells(v), Filled(log, mem, data)) == data + Sent(Cells(v), mem)[|log|..]
  {
    var all := Cells(v);
    assert Distinct(log) && InMemory(log, mem);
    var r := Filled(log, mem, data);
    forall k | 0 <= k < |all| ensures r[all[k]] == (data + Sent(all, mem)[|log|..])[k] {
      ReadsPrefix(log, mem, data, all[k]);
      if k < |log| { assert log[k] == all[k]; } else { assert all[k] !in log; }
    }
  }
}
