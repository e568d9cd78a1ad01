/** The interest records of one selector, kept beside a kernel whose calls may fail at any time, and which forgets a
    descriptor that is closed behind the selector's back. */
module Selectors {

  type Fd = int
  type Token = nat

  datatype Interest = Interest(read: bool, write: bool)

  datatype Event = Event(token: Token, readable: bool, writable: bool)

  datatype Call =
    | AddRead(fd: Fd, token: Token)
    | AddWrite(fd: Fd, token: Token)
    | DelBoth(fd: Fd)
    | DelRead(fd: Fd)
    | DelWrite(fd: Fd)
    | Select(events: seq<Event>)
    | Close(fd: Fd)

  /** The descriptor `select` takes event `i` for: the first event with a token consumes the token's entry, and an
      event without an entry counts for descriptor 0. */
  ghost function FdOf(tokenFd: map<Token, Fd>, events: seq<Event>, i: nat): Fd
    requires i < |events|
  {
    var t := events[i].token;
    if t in tokenFd && (forall j | 0 <= j < i :: events[j].token != t) then tokenFd[t] else 0
  }

  /** The token a descriptor is found under: the first map's, else the second's, else 0. */
  function TokenOf(tokens: map<Fd, Token>, others: map<Fd, Token>, fd: Fd): Token {
    if fd in tokens then tokens[fd] else if fd in others then others[fd] else 0
  }

  predicate Is(e: Event, reading: bool) { if reading then e.readable else e.writable }

  /** One of the first `n` events is about descriptor `fd` in the given direction. */
  ghost predicate Hit(tokenFd: map<Token, Fd>, events: seq<Event>, n: nat, reading: bool, fd: Fd)
    requires n <= |events|
  {
    exists i | 0 <= i < n :: Is(events[i], reading) && FdOf(tokenFd, events, i) == fd
  }

  ghost function NotHit(tokens: map<Fd, Token>, tokenFd: map<Token, Fd>, events: seq<Event>, n: nat, reading: bool)
    : map<Fd, Token>
    requires n <= |events|
  {
    map fd | fd in tokens && !Hit(tokenFd, events, n, reading, fd) :: tokens[fd]
  }

  ghost function Unused(tokenFd: map<Token, Fd>, events: seq<Event>, n: nat): map<Token, Fd>
    requires n <= |events|
  {
    map t | t in tokenFd && (forall j | 0 <= j < n :: events[j].token != t) :: tokenFd[t]
  }

  lemma NotHitStep(tokens: map<Fd, Token>, tokenFd: map<Token, Fd>, events: seq<Event>, n: nat, reading: bool)
    requires n < |events|
    ensures var before := NotHit(tokens, tokenFd, events, n, reading);
            NotHit(tokens, tokenFd, events, n + 1, reading)
            == if Is(events[n], reading) then before - {FdOf(tokenFd, events, n)} else before
  {
    forall fd
      ensures Hit(tokenFd, events, n + 1, reading, fd)
              <==> Hit(tokenFd, events, n, reading, fd) || (Is(events[n], reading) && FdOf(tokenFd, events, n) == fd)
    {
    }
  }

  lemma NothingHit(tokens: map<Fd, Token>, tokenFd: map<Token, Fd>, events: seq<Event>)
    ensures Unused(tokenFd, events, 0) == tokenFd
    ensures forall reading :: NotHit(tokens, tokenFd, events, 0, reading) == tokens
  {
  }

  lemma UnusedStep(tokenFd: map<Token, Fd>, events: seq<Event>, n: nat)
    requires n < |events|
    ensures Unused(tokenFd, events, n + 1) == Unused(tokenFd, events, n) - {events[n].token}
    ensures var t := events[n].token; var left := Unused(tokenFd, events, n);
            FdOf(tokenFd, events, n) == if t in left then left[t] else 0
  {
  }

  class Selector {
    /** What the kernel watches. */
    var kernel: map<Fd, Interest>
    var readable: set<Fd>
    var writable: set<Fd>
    var readTokens: map<Fd, Token>
    var writeTokens: map<Fd, Token>
    var tokenFd: map<Token, Fd>
    /** The recorded descriptors that were closed and not registered again since. */
    ghost var lost: set<Fd>

    /** The kernel watches each descriptor, except the lost ones, for exactly what is recorded, and tokens are only
        kept for recorded descriptors. */
    ghost predicate Valid()
      reads this
    {
      && kernel.Keys == readable + writable - lost && lost <= readable + writable
      && (forall fd | fd in kernel :: kernel[fd] == Interest(fd in readable, fd in writable))
      && readTokens.Keys <= readable
      && writeTokens.Keys <= writable
    }

    constructor ()
      ensures Valid() && kernel == map[] && lost == {} && readable == {} && writable == {}
    {
      lost := {};
      kernel, readable, writable, readTokens, writeTokens, tokenFd := map[], {}, {}, map[], map[], map[];
    }

    // ---- Kernel calls: they may fail for any reason, and then change nothing ----

    method Register(fd: Fd, token: Token, interest: Interest) returns (ok: bool)
      modifies this`kernel, this`tokenFd
      ensures ok ==> fd !in old(kernel)
      ensures kernel == (if ok then old(kernel)[fd := interest] else old(kernel))
      ensures tokenFd == if ok then old(tokenFd)[token := fd] else old(tokenFd)
    {
      ok := *;
      ok := ok && fd !in kernel;
      if ok {
        kernel := kernel[fd := interest];
        tokenFd := tokenFd[token := fd];
      }
    }

    method Reregister(fd: Fd, token: Token, interest: Interest) returns (ok: bool)
      modifies this`kernel, this`tokenFd
      ensures ok ==> fd in old(kernel)
      ensures kernel == (if ok then old(kernel)[fd := interest] else old(kernel))
      ensures tokenFd == if ok then old(tokenFd)[token := fd] else old(tokenFd)
    {
      ok := *;
      ok := ok && fd in kernel;
      if ok {
        kernel := kernel[fd := interest];
        tokenFd := tokenFd[token := fd];
      }
    }

    method Deregister(fd: Fd, token: Token) returns (ok: bool)
      modifies this`kernel, this`tokenFd
      ensures ok ==> fd in old(kernel)
      ensures kernel == (if ok then old(kernel) - {fd} else old(kernel))
      ensures tokenFd == if ok then old(tokenFd) - {token} else old(tokenFd)
    {
      ok := *;
      ok := ok && fd in kernel;
      if ok {
        kernel := kernel - {fd};
        tokenFd := tokenFd - {token};
      }
    }

    /** The descriptor is closed without a word to the selector. */
    method CloseUnnoticed(fd: Fd)
      requires Valid()
      modifies this`kernel, this`lost
      ensures Valid() && kernel == old(kernel) - {fd}
      ensures lost == old(lost) + if fd in readable || fd in writable then {fd} else {}
    {
      kernel := kernel - {fd};
      lost := lost + if fd in readable || fd in writable then {fd} else {};
    }

    // ---- Interest ----

    /** Reading is recorded and watched, or nothing has changed; but a descriptor for which reading is recorded
        already is taken to be watched, even if it is lost. The second registration attempt helps only for a
        lost descriptor: any other one is still registered. */
    method AddReadEvent(fd: Fd, token: Token) returns (ok: bool)
      requires Valid()
      modifies this`kernel, this`tokenFd, this`readable, this`readTokens, this`lost
      ensures Valid()
      ensures fd in old(readable) || !ok ==>
                && unchanged(`kernel) && unchanged(`tokenFd) && unchanged(`readable) && unchanged(`readTokens)
                && unchanged(`lost)
      ensures fd in old(readable) ==> ok
      ensures ok && fd !in old(readable) ==>
                && readable == old(readable) + {fd}
                && readTokens == old(readTokens)[fd := token]
                && tokenFd == old(tokenFd)[token := fd]
                && kernel == old(kernel)[fd := Interest(true, fd in writable)]
                && lost == old(lost) - {fd}
    {
      if fd in readable {
        return true;
      }
      if fd in writable {
        ok := Reregister(fd, token, Interest(true, true));
        if !ok {
          ok := Register(fd, token, Interest(true, true));
          assert ok ==> fd in lost;
        }
      } else {
        ok := Register(fd, token, Interest(true, false));
      }
      if !ok {
        return;
      }
      lost := lost - {fd};
      readable := readable + {fd};
      readTokens := readTokens[fd := token];
    }

    method AddWriteEvent(fd: Fd, token: Token) returns (ok: bool)
      requires Valid()
      modifies this`kernel, this`tokenFd, this`writable, this`writeTokens, this`lost
      ensures Valid()
      ensures fd in old(writable) || !ok ==>
                && unchanged(`kernel) && unchanged(`tokenFd) && unchanged(`writable) && unchanged(`writeTokens)
                && unchanged(`lost)
      ensures fd in old(writable) ==> ok
      ensures ok && fd !in old(writable) ==>
                && writable == old(writable) + {fd}
                && writeTokens == old(writeTokens)[fd := token]
                && tokenFd == old(tokenFd)[token := fd]
                && kernel == old(kernel)[fd := Interest(fd in readable, true)]
                && lost == old(lost) - {fd}
    {
      if fd in writable {
        return true;
      }
      if fd in readable {
        ok := Reregister(fd, token, Interest(true, true));
        if !ok {
          ok := Register(fd, token, Interest(true, true));
          assert ok ==> fd in lost;
        }
      } else {
        ok := Register(fd, token, Interest(false, true));
      }
      if !ok {
        return;
      }
      lost := lost - {fd};
      writable := writable + {fd};
      writeTokens := writeTokens[fd := token];
    }

    /** Both directions are gone, or both are still recorded and the kernel is as it was; the token records are gone
        either way. A lost descriptor cannot be deleted. */
    method DelEvent(fd: Fd) returns (ok: bool)
      requires Valid()
      modifies this
      ensures Valid()
      ensures readTokens == old(readTokens) - {fd} && writeTokens == old(writeTokens) - {fd}
      ensures ok ==> readable == old(readable) - {fd} && writable == old(writable) - {fd}
      ensures ok ==> kernel == old(kernel) - {fd}
      ensures !ok ==>
                && (fd in readable || fd in writable)
                && unchanged(`readable) && unchanged(`writable) && unchanged(`kernel)
      ensures lost == old(lost) && (fd in lost ==> !ok)
      ensures tokenFd == if ok && fd in old(kernel) then old(tokenFd) - {TokenOf(old(readTokens), old(writeTokens), fd)}
                         else old(tokenFd)
      ensures ok && fd in old(readTokens) ==> tokenFd == old(tokenFd) - {old(readTokens)[fd]}
      ensures ok && fd !in old(readTokens) && fd in old(writeTokens) ==>
                tokenFd == old(tokenFd) - {old(writeTokens)[fd]}
    {
      if fd !in readable && fd !in writable {
        return true;
      }
      var token := TokenOf(readTokens, writeTokens, fd);
      readTokens := readTokens - {fd};
      writeTokens := writeTokens - {fd};
      ok := Deregister(fd, token);
      if ok {
        readable := readable - {fd};
        writable := writable - {fd};
      }
    }

    /** Reading is no longer recorded nor watched and writing stays as it was, or both stay recorded and watched. */
    method DelReadEvent(fd: Fd) returns (ok: bool)
      requires Valid()
      modifies this
      ensures Valid() && writable == old(writable) && lost == old(lost)
      ensures fd in old(readable) && fd in lost ==> !ok
      ensures readable == if ok then old(readable) - {fd} else old(readable)
      ensures writeTokens == old(writeTokens)
      ensures readTokens == if ok || fd !in writable then old(readTokens) - {fd} else old(readTokens)
      ensures kernel - {fd} == old(kernel) - {fd}
      ensures ok && fd in old(readable) && fd in writable && fd in writeTokens ==>
                tokenFd == old(tokenFd)[writeTokens[fd] := fd]
      ensures ok && fd in old(readTokens) && fd !in writable ==> tokenFd == old(tokenFd) - {old(readTokens)[fd]}
      ensures tokenFd == if !ok || fd !in old(readable) then old(tokenFd)
                         else if fd in writable then old(tokenFd)[TokenOf(writeTokens, map[], fd) := fd]
                         else old(tokenFd) - {TokenOf(old(readTokens), old(writeTokens), fd)}
    {
      if fd !in readable {
        return true;
      }
      if fd in writable {
        var token := TokenOf(writeTokens, map[], fd);
        ok := Reregister(fd, token, Interest(false, true));
        if !ok {
          return;
        }
        assert fd in readable;
        readable := readable - {fd};
        readTokens := readTokens - {fd};
      } else {
        ok := DelEvent(fd);
        assert writeTokens == old(writeTokens);
      }
    }

    method DelWriteEvent(fd: Fd) returns (ok: bool)
      requires Valid()
      modifies this
      ensures Valid() && readable == old(readable) && lost == old(lost)
      ensures fd in old(writable) && fd in lost ==> !ok
      ensures writable == if ok then old(writable) - {fd} else old(writable)
      ensures readTokens == old(readTokens)
      ensures writeTokens == if ok || fd !in readable then old(writeTokens) - {fd} else old(writeTokens)
      ensures kernel - {fd} == old(kernel) - {fd}
      ensures ok && fd in old(writable) && fd in readable && fd in readTokens ==>
                tokenFd == old(tokenFd)[readTokens[fd] := fd]
      ensures ok && fd in old(writeTokens) && fd !in readable ==> tokenFd == old(tokenFd) - {old(writeTokens)[fd]}
      ensures tokenFd == if !ok || fd !in old(writable) then old(tokenFd)
                         else if fd in readable then old(tokenFd)[TokenOf(readTokens, map[], fd) := fd]
                         else old(tokenFd) - {TokenOf(old(readTokens), old(writeTokens), fd)}
    {
      if fd !in writable {
        return true;
      }
      if fd in readable {
        var token := TokenOf(readTokens, map[], fd);
        ok := Reregister(fd, token, Interest(true, false));
        if !ok {
          return;
        }
        assert fd in writable;
        writable := writable - {fd};
        writeTokens := writeTokens - {fd};
      } else {
        ok := DelEvent(fd);
        assert readTokens == old(readTokens);
      }
    }

    /** The record keeping of `select` for the events the kernel reported. */
    method SelectEvents(events: seq<Event>)
      requires Valid()
      modifies this`tokenFd, this`readTokens, this`writeTokens
      ensures Valid()
      ensures tokenFd == Unused(old(tokenFd), events, |events|)
      ensures readTokens == NotHit(old(readTokens), old(tokenFd), events, |events|, true)
      ensures writeTokens == NotHit(old(writeTokens), old(tokenFd), events, |events|, false)
    {
      hide Hit, NotHit, Unused, FdOf;
      NothingHit(readTokens, tokenFd, events);
      NothingHit(writeTokens, tokenFd, events);
      for i := 0 to |events|
        invariant Valid()
        invariant tokenFd == Unused(old(tokenFd), events, i)
        invariant readTokens == NotHit(old(readTokens), old(tokenFd), events, i, true)
        invariant writeTokens == NotHit(old(writeTokens), old(tokenFd), events, i, false)
      {
        var event := events[i];
        UnusedStep(old(tokenFd), events, i);
        NotHitStep(old(readTokens), old(tokenFd), events, i, true);
        NotHitStep(old(writeTokens), old(tokenFd), events, i, false);
        var fd := if event.token in tokenFd then tokenFd[event.token] else 0;
        tokenFd := tokenFd - {event.token};
        if event.readable {
          readTokens := readTokens - {fd};
        }
        if event.writable {
          writeTokens := writeTokens - {fd};
        }
      }
    }

    /** Adding and then deleting a direction gives back the records and the kernel as they were; a lost descriptor
        is watched again for the other direction. */
    method AddThenDelRead(fd: Fd, token: Token) returns (added: bool, deleted: bool)
      requires Valid() && fd !in readable
      modifies this
      ensures Valid()
      ensures added && deleted ==>
                && kernel == (if fd in old(lost) then old(kernel)[fd := Interest(false, true)] else old(kernel))
                && readable == old(readable) && writable == old(writable) && lost == old(lost) - {fd}
                && readTokens == old(readTokens) && writeTokens == old(writeTokens)
      ensures added && deleted && fd !in old(writable) ==> tokenFd == old(tokenFd) - {token}
    {
      added := AddReadEvent(fd, token);
      if !added {
        return false, false;
      }
      deleted := DelReadEvent(fd);
      assert deleted ==> readable == old(readable);
      assert forall o | o in kernel && o != fd :: kernel[o] == (kernel - {fd})[o] == (old(kernel) - {fd})[o];
    }

    method Step(c: Call) returns (ok: bool)
      requires Valid()
      modifies this
      ensures Valid() && forall fd | fd in lost :: fd in old(lost) || c == Close(fd)
      ensures readable == RecordedAfter(old(readable), c, ok, true)
      ensures writable == RecordedAfter(old(writable), c, ok, false)
    {
      ok := true;
      match c {
        case AddRead(fd, token) => ok := AddReadEvent(fd, token);
        case AddWrite(fd, token) => ok := AddWriteEvent(fd, token);
        case DelBoth(fd) => ok := DelEvent(fd);
        case DelRead(fd) => ok := DelReadEvent(fd);
        case DelWrite(fd) => ok := DelWriteEvent(fd);
        case Select(events) => SelectEvents(events);
        case Close(fd) => CloseUnnoticed(fd);
      }
    }

    /** A lost descriptor is not watched, and stays so: adding a recorded direction again succeeds without asking
        the kernel, and deleting fails. */
    method StaysUnwatched(fd: Fd, token: Token) returns (added: bool, deleted: bool)
      requires Valid() && fd in lost && fd in readable
      modifies this
      ensures Valid() && added && !deleted && fd !in kernel && fd in lost && fd in readable
    {
      added := AddReadEvent(fd, token);
      deleted := DelEvent(fd);
    }
  }

  /** What a call that succeeded does to the descriptors recorded for one direction. */
  function RecordedAfter(fds: set<Fd>, c: Call, ok: bool, reading: bool): set<Fd> {
    if !ok then fds
    else
      match c
      case AddRead(fd, _) => if reading then fds + {fd} else fds
      case AddWrite(fd, _) => if reading then fds else fds + {fd}
      case DelBoth(fd) => fds - {fd}
      case DelRead(fd) => if reading then fds - {fd} else fds
      case DelWrite(fd) => if reading then fds else fds - {fd}
      case _ => fds
  }

  /** The descriptors for which a direction was added and not deleted since, by the calls that succeeded. */
  function RecordedAll(calls: seq<Call>, oks: seq<bool>, reading: bool): set<Fd>
    requires |oks| == |calls|
  {
    if calls == [] then {}
    else
      var n := |calls| - 1;
      RecordedAfter(RecordedAll(calls[..n], oks[..n], reading), calls[n], oks[n], reading)
  }

  /** Every run: the records are what the successful calls have made of them, and the kernel interest of every
      descriptor that was not closed unnoticed is what the records say. */
  method AnyRun(calls: seq<Call>) returns (s: Selector, oks: seq<bool>)
    ensures |oks| == |calls|
    ensures s.readable == RecordedAll(calls, oks, true) && s.writable == RecordedAll(calls, oks, false)
    ensures forall fd :: fd in s.kernel <==> (fd in s.readable || fd in s.writable) && fd !in s.lost
    ensures forall fd | fd in s.kernel :: s.kernel[fd] == Interest(fd in s.readable, fd in s.writable)
    ensures s.readTokens.Keys <= s.readable && s.writeTokens.Keys <= s.writable
    ensures forall fd | fd in s.lost :: Close(fd) in calls
  {
    s := new Selector();
    oks := [];
    for i := 0 to |calls|
      invariant fresh(s) && s.Valid() && forall fd | fd in s.lost :: Close(fd) in calls[..i]
      invariant |oks| == i && s.readable == RecordedAll(calls[..i], oks, true)
      invariant s.writable == RecordedAll(calls[..i], oks, false)
    {
      var ok := s.Step(calls[i]);
      assert calls[..i + 1] == calls[..i] + [calls[i]];
      assert calls[..i + 1][..i] == calls[..i] && (oks + [ok])[..i] == oks;
      oks := oks + [ok];
    }
    assert calls[..|calls|] == calls;
  }
}
