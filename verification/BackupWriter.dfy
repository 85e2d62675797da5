/** The byte-limited writer behind the snapshot, and the streaming JSON string printer.

    Everything that writes keeps one contract, `Emitted`: what has been delivered grew by a
    prefix of the text asked for, by all of it when there was no error, and, as long as the
    destination itself does not fail, it is the asked-for stream cut at the limit, with the
    limit's error exactly when that was passed. Chunking never shows. */
module BackupWriter {
  import opened Common
  import opened BackupText

  const CHUNK := 32768

  datatype WriteError = TooLarge | ShortWrite | DestinationFailed

  /** A limit of zero or less is no limit. */
  predicate Over(limit: int, asked: Text) {
    limit > 0 && |asked| > limit
  }

  function Clip(limit: int, asked: Text): Text {
    if Over(limit, asked) then asked[..limit] else asked
  }

  /** `before` was delivered, `text` was asked for, and `after` is what is delivered now. */
  ghost predicate Emitted(limit: int, healthy: bool, before: Text, after: Text, text: Text, err: Option<WriteError>) {
    && before <= after <= before + text
    && (err.None? ==> after == before + text)
    && (healthy ==> after == Clip(limit, before + text) && err == if Over(limit, before + text) then Some(TooLarge) else None)
  }

  /** Writing one text after another is writing the two joined. */
  lemma EmittedThen(limit: int, healthy: bool, a: Text, b: Text, c: Text, first: Text, second: Text, err: Option<WriteError>)
    requires Emitted(limit, healthy, a, b, first, None)
    requires Emitted(limit, healthy, b, c, second, err)
    ensures Emitted(limit, healthy, a, c, first + second, err)
  {
    assert a + (first + second) == b + second;
  }

  /** Stopping at the first error is no different from going on. */
  lemma EmittedStop(limit: int, healthy: bool, a: Text, b: Text, first: Text, second: Text, err: Option<WriteError>)
    requires Emitted(limit, healthy, a, b, first, err) && err.Some?
    ensures Emitted(limit, healthy, a, b, first + second, err)
  {
    assert a + (first + second) == (a + first) + second;
  }

  function Concat(texts: seq<Text>): Text {
    if texts == [] then [] else Concat(texts[..|texts| - 1]) + texts[|texts| - 1]
  }

  /** Any sequence of calls, carried on after an error or not: what has arrived is the first
      bytes of everything asked for, up to the limit, however it was cut into calls; and some
      call failed exactly when that was too much. */
  lemma {:induction false} CallsDeliverThePrefix(limit: int, data: seq<Text>, texts: seq<Text>, errs: seq<Option<WriteError>>)
    requires |texts| == |errs| && |data| == |texts| + 1 && data[0] == []
    requires forall i :: 0 <= i < |texts| ==> Emitted(limit, true, data[i], data[i + 1], texts[i], errs[i])
    ensures data[|texts|] == Clip(limit, Concat(texts))
    ensures (exists i :: 0 <= i < |errs| && errs[i].Some?) <==> Over(limit, Concat(texts))
  {
    if texts != [] {
      var n := |texts| - 1;
      CallsDeliverThePrefix(limit, data[..n + 1], texts[..n], errs[..n]);
      var asked := Concat(texts[..n]);
      assert Emitted(limit, true, data[n], data[n + 1], texts[n], errs[n]);
      if exists i :: 0 <= i < n && errs[..n][i].Some? {
        var i :| 0 <= i < n && errs[..n][i].Some?;
        assert errs[i].Some?;
      } else {
        assert forall i :: 0 <= i < n ==> errs[i] == errs[..n][i];
      }
    }
  }

  /** So within the limit, or without one, everything arrives and no call fails; past it the
      first `limit` bytes arrive and some call says that it was too much. */
  lemma WhatArrives(limit: int, data: seq<Text>, texts: seq<Text>, errs: seq<Option<WriteError>>)
    requires |texts| == |errs| && |data| == |texts| + 1 && data[0] == []
    requires forall i :: 0 <= i < |texts| ==> Emitted(limit, true, data[i], data[i + 1], texts[i], errs[i])
    ensures limit <= 0 || |Concat(texts)| <= limit ==> data[|texts|] == Concat(texts) && forall i :: 0 <= i < |errs| ==> errs[i].None?
    ensures 0 < limit < |Concat(texts)| ==> data[|texts|] == Concat(texts)[..limit] && exists i :: 0 <= i < |errs| && errs[i] == Some(TooLarge)
  {
    CallsDeliverThePrefix(limit, data, texts, errs);
    if exists i :: 0 <= i < |errs| && errs[i].Some? {
      var i :| 0 <= i < |errs| && errs[i].Some?;
      assert Emitted(limit, true, data[i], data[i + 1], texts[i], errs[i]);
    }
  }

  /** Where the bytes go. A healthy one takes all it is given; any other may take less and
      may or may not say so. */
  class Destination {
    var data: Text
    const healthy: bool

    constructor (healthy: bool)
      ensures data == [] && this.healthy == healthy
    {
      data := [];
      this.healthy := healthy;
    }

    method Write(input: Text) returns (n: nat, failed: bool)
      modifies this
      ensures n <= |input| && data == old(data) + input[..n]
      ensures healthy ==> n == |input| && !failed
    {
      if healthy {
        n, failed := |input|, false;
      } else {
        n :| 0 <= n <= |input|;
        failed := *;
      }
      data := data + input[..n];
    }
  }

  class LimitWriter {
    const destination: Destination
    const limit: int
    const scratch: array<Byte>
    var written: nat

    constructor (destination: Destination, limit: int)
      requires destination.data == []
      ensures Valid() && this.destination == destination && this.limit == limit
      ensures fresh(scratch)
    {
      this.destination := destination;
      this.limit := limit;
      this.scratch := new Byte[CHUNK];
      this.written := 0;
    }

    ghost predicate Valid()
      reads this, destination
    {
      written == |destination.data| && (limit > 0 ==> written <= limit) && scratch.Length == CHUNK
    }

    ghost predicate Wrote(before: Text, text: Text, err: Option<WriteError>)
      reads destination
    {
      Emitted(limit, destination.healthy, before, destination.data, text, err)
    }

    method Write(input: Text) returns (n: nat, err: Option<WriteError>)
      requires Valid()
      modifies this`written, destination
      ensures Valid()
      ensures Wrote(old(destination.data), input, err)
      ensures n == |destination.data| - old(|destination.data|)
    {
      if |input| == 0 {
        return 0, None;
      }
      var allowed := |input|;
      var exceeded := false;
      if limit > 0 {
        var remaining := limit - written;
        if remaining <= 0 {
          return 0, Some(TooLarge);
        }
        if allowed > remaining {
          allowed := remaining;
          exceeded := true;
        }
      }
      var failed;
      n, failed := destination.Write(input[..allowed]);
      assert input[..allowed][..n] == input[..n];
      written := written + n;
      if failed {
        return n, Some(DestinationFailed);
      }
      if n != allowed {
        return n, Some(ShortWrite);
      }
      if exceeded {
        return n, Some(TooLarge);
      }
      return n, None;
    }

    /** Through the scratch buffer, one chunk at a time. */
    method WriteString(text: Text) returns (total: nat, err: Option<WriteError>)
      requires Valid()
      modifies this`written, destination, scratch
      ensures Valid()
      ensures Wrote(old(destination.data), text, err)
      ensures total == |destination.data| - old(|destination.data|)
    {
      ghost var before := destination.data;
      ghost var done: Text := [];
      var input := text;
      total := 0;
      while |input| > 0
        invariant Valid()
        invariant done + input == text
        invariant Wrote(before, done, None)
        invariant total == |done|
        decreases |input|
      {
        var size := Min(|input|, CHUNK);
        forall i | 0 <= i < size {
          scratch[i] := input[i];
        }
        assert scratch[..size] == input[..size];
        ghost var middle := destination.data;
        var n;
        n, err := Write(scratch[..size]);
        total := total + n;
        if err.Some? {
          EmittedThen(limit, destination.healthy, before, middle, destination.data, done, input[..size], err);
          EmittedStop(limit, destination.healthy, before, destination.data, done + input[..size], input[size..], err);
          assert done + input[..size] + input[size..] == text;
          return;
        }
        EmittedThen(limit, destination.healthy, before, middle, destination.data, done, input[..size], None);
        done := done + input[..size];
        input := input[size..];
      }
      assert done == text;
      err := None;
    }

    /** One more piece of `all`, after `done`. On an error the printer stops, and has then
        done as much as printing all of it would have. */
    method Emit(ghost before: Text, ghost done: Text, text: Text, ghost all: Text) returns (err: Option<WriteError>)
      requires Valid() && Wrote(before, done, None)
      requires done + text <= all
      modifies this`written, destination, scratch
      ensures Valid()
      ensures err.None? ==> Wrote(before, done + text, None)
      ensures err.Some? ==> Wrote(before, all, err)
    {
      ghost var middle := destination.data;
      var _, e := WriteString(text);
      err := e;
      EmittedThen(limit, destination.healthy, before, middle, destination.data, done, text, err);
      if err.Some? {
        EmittedStop(limit, destination.healthy, before, destination.data, done + text, all[|done + text|..], err);
        assert done + text + all[|done + text|..] == all;
      }
    }

    /** Write the run held back, if there is one, and then the text that ended it. */
    method FlushThen(ghost before: Text, ghost done: Text, run: Text, text: Text, ghost all: Text)
      returns (err: Option<WriteError>)
      requires Valid() && Wrote(before, done, None)
      requires done + run <= all && done + run + text <= all
      modifies this`written, destination, scratch
      ensures Valid()
      ensures err.None? ==> Wrote(before, done + run + text, None)
      ensures err.Some? ==> Wrote(before, all, err)
    {
      if |run| > 0 {
        err := Emit(before, done, run, all);
        if err.Some? {
          return;
        }
      } else {
        assert done + run == done;
      }
      err := Emit(before, done + run, text, all);
    }

    /** What needs an escape: the run before it is written, and then the escape. */
    method FlushRun(ghost before: Text, ghost done: Text, input: Text, start: nat, index: nat, turn: Turn)
      returns (err: Option<WriteError>, ghost more: Text)
      requires Valid() && Wrote(before, done, None)
      requires start <= index < |input| && Pending(input, start, index, done)
      requires Escapes(input[index..], turn) && turn.Replace?
      modifies this`written, destination, scratch
      ensures Valid()
      ensures err.None? ==> Wrote(before, more, None) && Pending(input, index + turn.size, index + turn.size, more)
      ensures err.Some? ==> Wrote(before, JsonString(input), err)
    {
      RunFlushes(input, start, index, turn, done);
      more := done + input[start..index] + turn.escape;
      err := FlushThen(before, done, input[start..index], turn.escape, JsonString(input));
    }

    /** One turn: the character at `index` joins the run that began at `start`, or ends it. */
    method TakeTurn(ghost before: Text, ghost done: Text, input: Text, start: nat, index: nat)
      returns (err: Option<WriteError>, from: nat, next: nat, ghost more: Text)
      requires Valid() && Wrote(before, done, None)
      requires start <= index < |input| && Pending(input, start, index, done)
      modifies this`written, destination, scratch
      ensures Valid()
      ensures err.None? ==> from <= next <= |input| && index < next && Wrote(before, more, None) && Pending(input, from, next, more)
      ensures err.Some? ==> Wrote(before, JsonString(input), err)
    {
      var turn := NextTurn(input[index..]);
      next := index + turn.size;
      if turn.Keep? {
        RunGrows(input, start, index, turn.size, done);
        err, from, more := None, start, done;
      } else {
        err, more := FlushRun(before, done, input, start, index, turn);
        from := next;
      }
    }

    method CloseString(ghost before: Text, ghost done: Text, input: Text, start: nat) returns (err: Option<WriteError>)
      requires Valid() && Wrote(before, done, None)
      requires start <= |input| && Pending(input, start, |input|, done)
      modifies this`written, destination, scratch
      ensures Valid() && Wrote(before, JsonString(input), err)
    {
      RunEnds(input, start, done);
      err := FlushThen(before, done, input[start..], [QUOTE], JsonString(input));
    }

    method OpenString(ghost input: Text) returns (err: Option<WriteError>)
      requires Valid()
      modifies this`written, destination, scratch
      ensures Valid()
      ensures err.None? ==> Wrote(old(destination.data), [QUOTE], None) && Pending(input, 0, 0, [QUOTE])
      ensures err.Some? ==> Wrote(old(destination.data), JsonString(input), err)
    {
      PendingStarts(input);
      assert [] + [QUOTE] == [QUOTE];
      err := Emit(destination.data, [], [QUOTE], JsonString(input));
    }

    /** The run-flushing escaper: bytes that need no escape are left where they are and
        written in one piece when one that does, or the end, comes along. */
    method WriteJSONString(input: Text) returns (err: Option<WriteError>)
      requires Valid()
      modifies this`written, destination, scratch
      ensures Valid()
      ensures Wrote(old(destination.data), JsonString(input), err)
    {
      ghost var before, done := destination.data, [QUOTE];
      err := OpenString(input);
      if err.Some? {
        return;
      }
      var start, index := 0, 0;
      while index < |input|
        invariant 0 <= start <= index <= |input|
        invariant Valid() && Wrote(before, done, None)
        invariant Pending(input, start, index, done)
      {
        err, start, index, done := TakeTurn(before, done, input, start, index);
        if err.Some? {
          return;
        }
      }
      err := CloseString(before, done, input, start);
    }
  }

  /** What the loop does with the character at the front: leaves its bytes in the run, or
      flushes the run and writes an escape in its place. */
  datatype Turn = Keep(size: nat) | Replace(escape: Text, size: nat)

  function Special(s: Text): (t: Turn)
    requires |s| > 0
    ensures 1 <= t.size <= |s|
  {
    if s[0] < 0x80 then
      if EscapeLetter(s[0]).None? && !NeedsHex(s[0]) then Keep(1) else Replace(EscapeByte(s[0]), 1)
    else
      match Decode(s)
      case None => Replace(UFFFD, 1)
      case Some((rune, n)) =>
        if rune == 0x2028 then Replace(U2028, n) else if rune == 0x2029 then Replace(U2029, n) else Keep(n)
  }

  /** Where the loop stands: what is written, the run held back, and what the simple
      escaper would still write make up the whole string. */
  ghost predicate Pending(input: Text, start: nat, index: nat, done: Text)
    requires start <= index <= |input|
  {
    done + (input[start..index] + (Escape(input[index..]) + [QUOTE])) == JsonString(input)
  }

  /** What a turn adds to the escaped text. */
  function Written(s: Text, turn: Turn): Text
    requires turn.size <= |s|
  {
    match turn
    case Keep(n) => s[..n]
    case Replace(escape, _) => escape
  }

  /** The turn deals with the front of `s` as the simple escaper does. */
  ghost predicate Escapes(s: Text, turn: Turn) {
    1 <= turn.size <= |s| && Escape(s) == Written(s, turn) + Escape(s[turn.size..])
  }

  method NextTurn(s: Text) returns (turn: Turn)
    requires |s| > 0
    ensures Escapes(s, turn)
  {
    turn := Special(s);
    EscapeFront(s);
  }

  lemma AsciiFront(s: Text)
    requires |s| > 0 && s[0] < 0x80
    ensures Special(s).size == 1 && Written(s, Special(s)) == EscapeByte(s[0])
  {
    assert s[..1] == [s[0]];
  }

  lemma RuneFront(s: Text)
    requires |s| > 0 && s[0] >= 0x80 && Decode(s).Some?
    ensures var (rune, n) := Decode(s).value; Special(s).size == n && Written(s, Special(s)) == EscapeRune(rune, s[..n])
  {
  }

  lemma EscapeFront(s: Text)
    requires |s| > 0
    ensures Escapes(s, Special(s))
  {
    if s[0] < 0x80 {
      AsciiFront(s);
    } else if Decode(s).Some? {
      RuneFront(s);
    }
  }

  lemma PendingStarts(input: Text)
    ensures [] + [QUOTE] <= JsonString(input)
    ensures Pending(input, 0, 0, [] + [QUOTE])
  {
    assert input[0..] == input && input[0..0] == [];
    Reassociate([QUOTE], Escape(input), [QUOTE]);
    assert [] + (Escape(input) + [QUOTE]) == Escape(input) + [QUOTE];
  }

  lemma Reassociate(a: Text, b: Text, c: Text)
    ensures a + (b + c) == (a + b) + c
    ensures a + b <= a + (b + c)
  {
  }

  lemma Slices(input: Text, start: nat, index: nat, size: nat)
    requires start <= index && index + size <= |input|
    ensures input[index..][size..] == input[index + size..]
    ensures input[start..index + size] == input[start..index] + input[index..][..size]
  {
  }

  lemma KeepRegroups(done: Text, run: Text, kept: Text, rest: Text)
    ensures done + (run + ((kept + rest) + [QUOTE])) == done + ((run + kept) + (rest + [QUOTE]))
  {
  }

  lemma FlushRegroups(done: Text, run: Text, escape: Text, rest: Text)
    ensures done + (run + ((escape + rest) + [QUOTE])) == (done + run + escape) + ([] + (rest + [QUOTE]))
    ensures done + run <= done + (run + ((escape + rest) + [QUOTE]))
    ensures done + run + escape <= done + (run + ((escape + rest) + [QUOTE]))
  {
  }

  lemma RunGrows(input: Text, start: nat, index: nat, size: nat, done: Text)
    requires start <= index < |input| && Pending(input, start, index, done)
    requires Escapes(input[index..], Keep(size))
    ensures Pending(input, start, index + size, done)
  {
    Slices(input, start, index, size);
    KeepRegroups(done, input[start..index], input[index..][..size], Escape(input[index + size..]));
  }

  lemma RunFlushes(input: Text, start: nat, index: nat, turn: Turn, done: Text)
    requires start <= index < |input| && Pending(input, start, index, done)
    requires Escapes(input[index..], turn) && turn.Replace?
    ensures var flushed := done + input[start..index];
            && flushed <= JsonString(input) && flushed + turn.escape <= JsonString(input)
            && Pending(input, index + turn.size, index + turn.size, flushed + turn.escape)
  {
    Slices(input, start, index, turn.size);
    assert input[index + turn.size..index + turn.size] == [];
    FlushRegroups(done, input[start..index], turn.escape, Escape(input[index..][turn.size..]));
  }

  lemma RunEnds(input: Text, start: nat, done: Text)
    requires start <= |input| && Pending(input, start, |input|, done)
    ensures done + input[start..] <= JsonString(input)
    ensures done + input[start..] + [QUOTE] == JsonString(input)
  {
    assert input[start..|input|] == input[start..] && input[|input|..] == [];
    assert Escape([]) + [QUOTE] == [QUOTE];
    Reassociate(done, input[start..], [QUOTE]);
  }
}
