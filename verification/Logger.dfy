/** The logger's two halves between interruptions: log pushes elements into the queue, the flush
    loop moves them to the file. */
module Loggers {
  import opened LFQueues
  import opened LogFormat

  /** The character a pointer into a C string sees. */
  function At(f: string, s: nat): char {
    if s < |f| then f[s] else NUL
  }

  /** What logging from position s on pushes. */
  function LoggedFrom(f: string, s: nat, args: seq<Arg>): Outcome
    requires s <= |f|
  {
    Logged(Parse(CString(f[s..])), args)
  }

  lemma CStringFrom(f: string, s: nat)
    requires s <= |f|
    ensures CString(f[s..]) == if At(f, s) == NUL then [] else [f[s]] + CString(f[s + 1..])
  {
    if s < |f| {
      assert f[s..][1..] == f[s + 1..];
    }
  }

  /** One turn of the scanner. */
  lemma ScanStep(f: string, s: nat, args: seq<Arg>)
    requires s <= |f|
    ensures At(f, s) == NUL ==> LoggedFrom(f, s, args) == Outcome([], if args == [] then Done else ExtraArgs)
    ensures At(f, s) != NUL && f[s] != '%' ==>
              LoggedFrom(f, s, args) == Prepend([CHAR(f[s])], LoggedFrom(f, s + 1, args))
    ensures At(f, s) == '%' && At(f, s + 1) == '%' ==>
              LoggedFrom(f, s, args) == Prepend([CHAR('%')], LoggedFrom(f, s + 2, args))
    ensures At(f, s) == '%' && At(f, s + 1) != '%' ==>
              LoggedFrom(f, s, args) == if args == [] then Outcome([], MissingArgs)
                                  else Prepend(Elements(args[0]), LoggedFrom(f, s + 1, args[1..]))
  {
    CStringFrom(f, s);
    if At(f, s) != NUL {
      CStringFrom(f, s + 1);
      var t := CString(f[s..]);
      assert t[1..] == CString(f[s + 1..]);
      if At(f, s) == '%' && At(f, s + 1) == '%' {
        assert t[2..] == CString(f[s + 2..]);
      }
    }
  }

  /** One turn of pushing a text. */
  lemma TextStep(f: string, s: nat)
    requires s <= |f|
    ensures At(f, s) == NUL ==> Chars(CString(f[s..])) == []
    ensures At(f, s) != NUL ==> Chars(CString(f[s..])) == [CHAR(f[s])] + Chars(CString(f[s + 1..]))
  {
    CStringFrom(f, s);
  }

  lemma LoggedSpells(f: string, s: nat, args: seq<Arg>)
    requires s <= |f|
    ensures Spells(Parse(CString(f[s..])), args, LoggedFrom(f, s, args).pushed)
  {
    LogSpells(Parse(CString(f[s..])), args);
  }

  lemma PrependTwice(a: seq<LogElement>, b: seq<LogElement>, o: Outcome)
    ensures Prepend(a, Prepend(b, o)) == Prepend(a + b, o)
  {
    assert a + (b + o.pushed) == (a + b) + o.pushed;
  }

  class Logger {
    const queue: LFQueue<LogElement>
    var file: seq<LogElement>

    constructor (n: nat)
      requires 0 < n < WORD
      ensures queue.Valid() && Pending() == [] && file == [] && fresh(queue) && fresh(queue.store)
    {
      queue := new LFQueue<LogElement>(n);
      file := [];
    }

    /** Elements pushed and not flushed yet. */
    ghost function Pending(): seq<LogElement>
      requires SharedOk(queue.Snapshot())
      reads queue, queue.store
    {
      Contents(queue.Snapshot())
    }

    /** There is room for n more elements without filling the ring. */
    ghost predicate Room(n: nat)
      requires queue.Valid()
      reads queue, queue.store
    {
      |Pending()| + n < queue.store.Length
    }

    method PushValue(e: LogElement)
      requires SharedOk(queue.Snapshot())
      modifies queue, queue.store
      ensures queue.Snapshot() == PushedAll(old(queue.Snapshot()), [e])
    {
      queue.Push(e);
    }

    /** A text goes in character by character, up to its NUL. */
    method PushText(value: string)
      requires SharedOk(queue.Snapshot())
      modifies queue, queue.store
      ensures queue.Snapshot() == PushedAll(old(queue.Snapshot()), Chars(CString(value)))
      ensures old(queue.Valid() && Room(|Chars(CString(value))|)) ==>
                queue.Valid() && Pending() == old(Pending()) + Chars(CString(value))
    {
      hide Contents, Chars, CString, PushedAlone;
      var i: nat := 0;
      ghost var q0, pushed := queue.Snapshot(), [];
      ghost var all := Chars(CString(value));
      assert value[0..] == value;
      while At(value, i) != NUL
        invariant i <= |value|
        invariant all == pushed + Chars(CString(value[i..]))
        invariant queue.Snapshot() == PushedAll(q0, pushed)
        decreases |value| - i
      {
        TextStep(value, i);
        PushValue(CHAR(value[i]));
        PushedTwice(q0, pushed, [CHAR(value[i])]);
        pushed := pushed + [CHAR(value[i])];
        i := i + 1;
      }
      TextStep(value, i);
      assert all == pushed;
      if old(queue.Valid() && Room(|all|)) {
        PushedWithRoom(q0, all);
      }
    }

    method PushArg(a: Arg)
      requires SharedOk(queue.Snapshot())
      modifies queue, queue.store
      ensures queue.Snapshot() == PushedAll(old(queue.Snapshot()), Elements(a))
    {
      match a
      case Scalar(e) => PushValue(e);
      case Text(s) => PushText(s);
    }

    /** The scan both log overloads share: literal characters are pushed, "%%" as one percent
        sign, up to a placeholder or the end. */
    method Scan(f: string, start: nat, ghost args: seq<Arg>)
        returns (s: nat, found: bool, ghost pushed: seq<LogElement>)
      requires SharedOk(queue.Snapshot()) && start <= |f|
      modifies queue, queue.store
      ensures s <= |f|
      ensures queue.Snapshot() == PushedAll(old(queue.Snapshot()), pushed)
      ensures LoggedFrom(f, start, args) == Prepend(pushed, LoggedFrom(f, s, args))
      ensures if found then At(f, s) == '%' && At(f, s + 1) != '%' else At(f, s) == NUL
    {
      hide LoggedFrom, Contents, PushedAlone;
      ghost var q0 := queue.Snapshot();
      s, pushed := start, [];
      while At(f, s) != NUL
        invariant s <= |f|
        invariant LoggedFrom(f, start, args) == Prepend(pushed, LoggedFrom(f, s, args))
        invariant queue.Snapshot() == PushedAll(q0, pushed)
        decreases |f| - s
      {
        ScanStep(f, s, args);
        if f[s] == '%' {
          if At(f, s + 1) == '%' {
            s := s + 1;
          } else {
            return s, true, pushed;
          }
        }
        PushValue(CHAR(f[s]));
        PushedTwice(q0, pushed, [CHAR(f[s])]);
        PrependTwice(pushed, [CHAR(f[s])], LoggedFrom(f, s + 1, args));
        pushed := pushed + [CHAR(f[s])];
        s := s + 1;
      }
      found := false;
    }

    /** Logging without arguments: a placeholder is a fatal error. */
    method LogTerminal(f: string, start: nat) returns (status: Status)
      requires SharedOk(queue.Snapshot()) && start <= |f|
      modifies queue, queue.store
      ensures var o := LoggedFrom(f, start, []);
              && status == o.status
              && queue.Snapshot() == PushedAll(old(queue.Snapshot()), o.pushed)
              && (old(queue.Valid() && Room(|o.pushed|)) ==> queue.Valid() && Pending() == old(Pending()) + o.pushed)
    {
      hide LoggedFrom, Contents, PushedAlone, PushedAll;
      ghost var q0, pushed := queue.Snapshot(), [];
      var s, found;
      s, found, pushed := Scan(f, start, []);
      ScanStep(f, s, []);
      status := if found then MissingArgs else Done;
      assert pushed + [] == pushed;
      if old(queue.Valid() && Room(|LoggedFrom(f, start, []).pushed|)) {
        PushedWithRoom(q0, pushed);
      }
    }

    /** Logging: the first placeholder takes the first argument, the rest of the format the rest.
        Too few placeholders are a fatal error. */
    method Log(f: string, start: nat, args: seq<Arg>) returns (status: Status)
      requires SharedOk(queue.Snapshot()) && start <= |f|
      modifies queue, queue.store
      ensures var o := LoggedFrom(f, start, args);
              && status == o.status
              && queue.Snapshot() == PushedAll(old(queue.Snapshot()), o.pushed)
              && Spells(Parse(CString(f[start..])), args, o.pushed)
              && (old(queue.Valid() && Room(|o.pushed|)) ==> queue.Valid() && Pending() == old(Pending()) + o.pushed)
      decreases |args|
    {
      hide LoggedFrom, Contents, Elements, PushedAlone, PushedAll, Spells, Parse, CString;
      LoggedSpells(f, start, args);
      if args == [] {
        status := LogTerminal(f, start);
        return;
      }
      ghost var q0 := queue.Snapshot();
      var s, found;
      ghost var pushed;
      s, found, pushed := Scan(f, start, args);
      ScanStep(f, s, args);
      if !found {
        status := ExtraArgs;
        assert pushed + [] == pushed;
      } else {
        ghost var rest := LoggedFrom(f, s + 1, args[1..]);
        PushArg(args[0]);
        status := Log(f, s + 1, args[1..]);
        PrependTwice(pushed, Elements(args[0]), rest);
        PushedTwice(q0, pushed, Elements(args[0]));
        PushedTwice(q0, pushed + Elements(args[0]), rest.pushed);
      }
      if old(queue.Valid() && Room(|LoggedFrom(f, start, args).pushed|)) {
        PushedWithRoom(q0, LoggedFrom(f, start, args).pushed);
      }
    }

    /** The oldest element goes to the file and off the queue. */
    method Stream(next: nat)
      requires queue.Valid() && Pending() != [] && next < queue.store.Length && queue.store[next] == Pending()[0]
      modifies this`file, queue`nextReadIndex, queue`numElements
      ensures queue.Valid() && Pending() == old(Pending())[1..]
      ensures file == old(file) + [old(Pending())[0]]
    {
      hide Contents, SharedOk, PoppedAlone;
      file := file + [queue.store[next]];
      queue.Pop();
    }

    /** The inner loop of the flush thread, left alone: everything pending goes to the file in
        order. */
    method Flush()
      requires queue.Valid()
      modifies this`file, queue
      ensures queue.Valid() && Pending() == []
      ensures file == old(file) + old(Pending())
    {
      hide Contents, SharedOk;
      var next := queue.GetNextToRead();
      var size := queue.Size();
      while size != 0 && next != -1
        invariant queue.Valid()
        invariant file + Pending() == old(file + Pending())
        invariant size == queue.numElements
        invariant next == -1 <==> Pending() == []
        invariant next != -1 ==> 0 <= next < queue.store.Length && queue.store[next] == Pending()[0]
        decreases |Pending()|
      {
        Stream(next);
        next := queue.GetNextToRead();
        size := queue.Size();
      }
      assert file + [] == file;
    }
  }
}
