/** The keyboard buffer and its line editor (kernel/src/keyboard.c). */
module Keyboard {
  import opened Words
  import opened Rings

  const BUFFER_SIZE: nat := 256
  const TERMINATOR: char := 0 as char

  /** The line that keys leave, where a backspace takes back the last one. */
  function Typed(keys: seq<char>): (line: seq<char>)
    ensures |line| <= |keys| && BACKSPACE !in line
    ensures NEWLINE in line ==> NEWLINE in keys
  {
    if keys == [] then [] else
    var line, key := Typed(keys[..|keys| - 1]), keys[|keys| - 1];
    if key != BACKSPACE then line + [key] else if line == [] then [] else line[..|line| - 1]
  }

  lemma TypedNothing()
    ensures Typed([]) == []
  {
  }

  lemma TypedStep(keys: seq<char>, key: char)
    ensures var line := Typed(keys);
            Typed(keys + [key]) ==
            if key != BACKSPACE then line + [key] else if line == [] then [] else line[..|line| - 1]
  {
  }

  /** Without backspaces the line is what was typed. */
  lemma {:induction false} TypedPlain(keys: seq<char>)
    requires BACKSPACE !in keys
    ensures Typed(keys) == keys
  {
    if keys != [] {
      TypedPlain(keys[..|keys| - 1]);
    }
  }

  /** A key that is taken back leaves no trace, wherever it was typed. */
  lemma {:induction false} TypedTakenBack(a: seq<char>, key: char, b: seq<char>)
    requires key != BACKSPACE
    ensures Typed(a + [key, BACKSPACE] + b) == Typed(a + b)
    decreases |b|
  {
    if b == [] {
      assert a + [key, BACKSPACE] + b == a + [key] + [BACKSPACE] && a + b == a;
      TypedStep(a, key);
      TypedStep(a + [key], BACKSPACE);
    } else {
      var front, last := b[..|b| - 1], b[|b| - 1];
      TypedTakenBack(a, key, front);
      assert a + [key, BACKSPACE] + b == a + [key, BACKSPACE] + front + [last] && a + b == a + front + [last];
      TypedStep(a + [key, BACKSPACE] + front, last);
      TypedStep(a + front, last);
    }
  }

  /** A backspace on an empty line is ignored. */
  lemma {:induction false} TypedLeading(keys: seq<char>)
    ensures Typed([BACKSPACE] + keys) == Typed(keys)
  {
    if keys == [] {
      assert [BACKSPACE] + keys == [] + [BACKSPACE];
      TypedStep([], BACKSPACE);
    } else {
      var front, last := keys[..|keys| - 1], keys[|keys| - 1];
      TypedLeading(front);
      assert [BACKSPACE] + keys == [BACKSPACE] + front + [last] && keys == front + [last];
      TypedStep([BACKSPACE] + front, last);
      TypedStep(front, last);
    }
  }

  /** What waiting for a key comes to: the key if one comes, where the arrivals go on, what is left pending and what was
      accepted meanwhile. */
  datatype Glance = Glance(key: Option<char>, next: nat, rest: seq<char>, accepted: seq<char>)

  ghost function Look(queue: seq<char>, arrivals: seq<seq<char>>, i: nat): Glance
    requires |queue| < BUFFER_SIZE && i <= |arrivals|
    decreases |arrivals| - i
  {
    if i == |arrivals| then
      if queue == [] then Glance(None, i, [], []) else Glance(Some(queue[0]), i, queue[1..], [])
    else
      var more := Admitted(queue, arrivals[i], BUFFER_SIZE - 1);
      var pending := queue + more;
      if pending != [] then Glance(Some(pending[0]), i + 1, pending[1..], more) else Look([], arrivals, i + 1)
  }

  /** No key is lost or made up while waiting, and None means that none is left to come. */
  lemma {:induction false} LookConserves(queue: seq<char>, arrivals: seq<seq<char>>, i: nat)
    requires |queue| < BUFFER_SIZE && i <= |arrivals|
    ensures var g := Look(queue, arrivals, i);
            && i <= g.next <= |arrivals| && |g.rest| < BUFFER_SIZE
            && queue + g.accepted == (if g.key.Some? then [g.key.value] else []) + g.rest
            && (g.key == None ==> g.rest == [] && g.next == |arrivals|)
            && (g.next == i ==> |g.rest| < |queue| || g.key == None)
    decreases |arrivals| - i
  {
    if i < |arrivals| && queue + Admitted(queue, arrivals[i], BUFFER_SIZE - 1) == [] {
      LookConserves([], arrivals, i + 1);
    }
  }

  /** Which key a wait returns: the oldest pending one, or else the first key of the first interrupts that bring any. It
      still waits exactly when nothing is pending and no more keys come. */
  lemma {:induction false} LookMeaning(queue: seq<char>, arrivals: seq<seq<char>>, i: nat)
    requires |queue| < BUFFER_SIZE && i <= |arrivals|
    ensures var g := Look(queue, arrivals, i);
            && (g.key == None <==> queue == [] && forall k | i <= k < |arrivals| :: arrivals[k] == [])
            && (queue != [] ==>
                  && g.key == Some(queue[0]) && g.next == (if i < |arrivals| then i + 1 else i)
                  && g.accepted == if i < |arrivals| then Admitted(queue, arrivals[i], 255) else [])
            && (queue == [] && g.key.Some? ==>
                  && i < g.next <= |arrivals| && arrivals[g.next - 1] != [] && g.key == Some(arrivals[g.next - 1][0])
                  && (forall k | i <= k < g.next - 1 :: arrivals[k] == [])
                  && g.accepted == Admitted([], arrivals[g.next - 1], 255))
    decreases |arrivals| - i
  {
    hide Admitted;
    if i < |arrivals| {
      AdmittedFirst(queue, arrivals[i], 255);
      if queue == [] && arrivals[i] == [] {
        LookMeaning([], arrivals, i + 1);
      }
    }
  }

  lemma AdmittedFirst(queue: seq<char>, batch: seq<char>, limit: nat)
    requires |queue| <= limit && limit > 0
    ensures var taken := Admitted(queue, batch, limit);
            && (batch == [] ==> taken == [])
            && (queue == [] && batch != [] ==> taken != [] && taken[0] == batch[0])
  {
  }

  /** The number of characters in the buffer after a key that is no newline. */
  function Edited(position: nat, key: char): nat {
    if key != BACKSPACE then position + 1 else if position > 0 then position - 1 else 0
  }

  /** The keys that keyboard_get_line reads with `position` characters in a buffer of the given size. */
  datatype Session = Session(keys: seq<char>, blocked: bool, rest: seq<char>, accepted: seq<char>)

  ghost function Read(queue: seq<char>, arrivals: seq<seq<char>>, i: nat, position: nat, size: nat): Session
    requires |queue| < BUFFER_SIZE && i <= |arrivals|
    decreases |arrivals| - i, |queue|
  {
    if position + 1 >= size then Session([], false, queue, []) else
    var g := Look(queue, arrivals, i);
    LookConserves(queue, arrivals, i);
    if g.key == None then Session([], true, g.rest, g.accepted)
    else if g.key.value == NEWLINE then Session([NEWLINE], false, g.rest, g.accepted)
    else
      var s := Read(g.rest, arrivals, g.next, Edited(position, g.key.value), size);
      Session([g.key.value] + s.keys, s.blocked, s.rest, g.accepted + s.accepted)
  }

  /** The whole session is what was read so far and then the rest. */
  ghost predicate Continues(whole: Session, keys: seq<char>, accepted: seq<char>, s: Session) {
    whole == Session(keys + s.keys, s.blocked, s.rest, accepted + s.accepted)
  }

  /** No key is lost or made up while a line is read. */
  lemma {:induction false} ReadConserves(queue: seq<char>, arrivals: seq<seq<char>>, i: nat, position: nat, size: nat)
    requires |queue| < BUFFER_SIZE && i <= |arrivals|
    ensures var s := Read(queue, arrivals, i, position, size);
            queue + s.accepted == s.keys + s.rest && (s.blocked ==> s.rest == [])
    decreases |arrivals| - i, |queue|
  {
    hide Look;
    if position + 1 < size {
      var g := Look(queue, arrivals, i);
      LookConserves(queue, arrivals, i);
      if g.key.Some? && g.key.value != NEWLINE {
        ReadConserves(g.rest, arrivals, g.next, Edited(position, g.key.value), size);
        var s := Read(g.rest, arrivals, g.next, Edited(position, g.key.value), size);
        assert queue + (g.accepted + s.accepted) == queue + g.accepted + s.accepted
            == [g.key.value] + g.rest + s.accepted == [g.key.value] + (g.rest + s.accepted);
        assert [g.key.value] + (s.keys + s.rest) == [g.key.value] + s.keys + s.rest;
      }
    }
  }

  lemma NothingToRead(queue: seq<char>, arrivals: seq<seq<char>>)
    requires |queue| < BUFFER_SIZE
    ensures Read(queue, arrivals, 0, 0, 0) == Session([], false, queue, [])
  {
  }

  lemma ReadStart(s: Session)
    ensures Continues(s, [], [], s)
  {
  }

  /** One key more of a session that has read some. */
  lemma ReadStep(whole: Session, keys: seq<char>, accepted: seq<char>, queue: seq<char>, arrivals: seq<seq<char>>,
                 i: nat, position: nat, size: nat)
    requires |queue| < BUFFER_SIZE && i <= |arrivals| && position + 1 < size
    requires Continues(whole, keys, accepted, Read(queue, arrivals, i, position, size))
    ensures var g := Look(queue, arrivals, i);
            && i <= g.next <= |arrivals| && |g.rest| < BUFFER_SIZE
            && (g.key == None ==> whole == Session(keys, true, g.rest, accepted + g.accepted))
            && (g.key == Some(NEWLINE) ==> whole == Session(keys + [NEWLINE], false, g.rest, accepted + g.accepted))
            && (g.key.Some? && g.key.value != NEWLINE ==>
                  Continues(whole, keys + [g.key.value], accepted + g.accepted,
                            Read(g.rest, arrivals, g.next, Edited(position, g.key.value), size)))
  {
    hide Look;
    LookConserves(queue, arrivals, i);
    var g := Look(queue, arrivals, i);
    if g.key.Some? && g.key.value != NEWLINE {
      var s := Read(g.rest, arrivals, g.next, Edited(position, g.key.value), size);
      assert keys + ([g.key.value] + s.keys) == keys + [g.key.value] + s.keys;
      assert accepted + (g.accepted + s.accepted) == accepted + g.accepted + s.accepted;
    }
  }

  lemma ReadFull(whole: Session, keys: seq<char>, accepted: seq<char>, queue: seq<char>, arrivals: seq<seq<char>>,
                 i: nat, position: nat, size: nat)
    requires |queue| < BUFFER_SIZE && i <= |arrivals| && position + 1 >= size
    requires Continues(whole, keys, accepted, Read(queue, arrivals, i, position, size))
    ensures whole == Session(keys, false, queue, accepted)
  {
  }

  /** Rejected is the -1 of an empty buffer; Blocked means the call still waits for a key. */
  datatype LineResult = Rejected | Blocked | Line(length: nat)

  class KeyboardBuffer {
    const ring: RingBuffer<char>

    ghost predicate Valid()
      reads this, ring, ring.slots
    {
      ring.Valid() && ring.slots.Length == BUFFER_SIZE
    }

    constructor ()
      ensures Valid() && fresh(ring) && fresh(ring.slots) && ring.Queue() == []
    {
      ring := new RingBuffer(BUFFER_SIZE, TERMINATOR);
    }

    /** keyboard_queue_char: a key that finds 255 others pending is lost. */
    method QueueChar(c: char)
      requires Valid()
      modifies ring`tail, ring.slots
      ensures Valid()
      ensures ring.Queue() ==
              if |old(ring.Queue())| < BUFFER_SIZE - 1 then old(ring.Queue()) + [c] else old(ring.Queue())
    {
      var ok := ring.TryPut(c);
    }

    /** keyboard_getchar, where arrivals[k] are the keys of the interrupts before its k-th look at the buffer, counting
        from i; None means that it still waits when they are used up. */
    method GetChar(arrivals: seq<seq<char>>, i: nat) returns (c: Option<char>, next: nat, ghost accepted: seq<char>)
      requires Valid() && i <= |arrivals|
      modifies ring`head, ring`tail, ring.slots
      ensures Valid() && |old(ring.Queue())| < BUFFER_SIZE
      ensures Glance(c, next, ring.Queue(), accepted) == Look(old(ring.Queue()), arrivals, i)
    {
      hide Contents, Admitted;
      ring.Capacity();
      accepted, next := [], i;
      while true
        invariant Valid() && i <= next <= |arrivals| && |ring.Queue()| < BUFFER_SIZE && accepted == []
        invariant Look(old(ring.Queue()), arrivals, i) == Look(ring.Queue(), arrivals, next)
        decreases |arrivals| - next
      {
        ghost var queue := ring.Queue();
        if next < |arrivals| {
          accepted := ring.Arrive(arrivals[next]);
          next := next + 1;
          c := ring.TryTake();
          if c.Some? {
            return;
          }
          ring.Capacity();
        } else {
          c := ring.TryTake();
          return;
        }
      }
    }

    /** keyboard_get_line reads the keys of Read: the buffer receives what they leave after editing, NUL-terminated
        and within its size; reading stops at the first newline or when the buffer is full, and no key is lost or made
        up. */
    method GetLine(buffer: array<char>, arrivals: seq<seq<char>>)
      returns (r: LineResult, ghost keys: seq<char>, ghost accepted: seq<char>)
      requires Valid() && buffer != ring.slots
      modifies ring`head, ring`tail, ring.slots, buffer
      ensures Valid() && |old(ring.Queue())| < BUFFER_SIZE && old(ring.Queue()) + accepted == keys + ring.Queue()
      ensures Session(keys, r == Blocked, ring.Queue(), accepted)
              == Read(old(ring.Queue()), arrivals, 0, 0, buffer.Length)
      ensures r == Rejected <==> buffer.Length == 0
      ensures r.Line? ==>
                && r.length < buffer.Length && buffer[..r.length] == Typed(keys) && buffer[r.length] == TERMINATOR
                && NEWLINE !in keys[..if keys == [] then 0 else |keys| - 1]
                && (r.length + 1 == buffer.Length || (keys != [] && keys[|keys| - 1] == NEWLINE))
      ensures r == Blocked ==> ring.Queue() == [] && NEWLINE !in keys && |Typed(keys)| + 1 < buffer.Length
    {
      hide Contents, Typed, Look, Read;
      ring.Capacity();
      ReadConserves(ring.Queue(), arrivals, 0, 0, buffer.Length);
      if buffer.Length == 0 {
        NothingToRead(ring.Queue(), arrivals);
        return Rejected, [], [];
      }
      var position, ended;
      position, ended, keys, accepted := ReadLine(buffer, arrivals);
      if !ended {
        return Blocked, keys, accepted;
      }
      buffer[position] := TERMINATOR;
      r := Line(position);
    }

    /** The loop of keyboard_get_line; it has ended unless the next key is still awaited. */
    method ReadLine(buffer: array<char>, arrivals: seq<seq<char>>)
      returns (position: nat, ended: bool, ghost keys: seq<char>, ghost accepted: seq<char>)
      requires Valid() && buffer != ring.slots && buffer.Length > 0
      modifies ring`head, ring`tail, ring.slots, buffer
      ensures Valid() && |old(ring.Queue())| < BUFFER_SIZE
      ensures Session(keys, !ended, ring.Queue(), accepted) == Read(old(ring.Queue()), arrivals, 0, 0, buffer.Length)
      ensures position < buffer.Length && buffer[..position] == Typed(keys)
      ensures ended ==>
                && NEWLINE !in keys[..if keys == [] then 0 else |keys| - 1]
                && (position + 1 == buffer.Length || (keys != [] && keys[|keys| - 1] == NEWLINE))
      ensures !ended ==> NEWLINE !in keys && position + 1 < buffer.Length
    {
      hide Contents, Typed, Look, Read, Continues;
      keys, accepted, position, ended := [], [], 0, false;
      TypedNothing();
      ring.Capacity();
      var i := 0;
      ghost var whole := Read(ring.Queue(), arrivals, 0, 0, buffer.Length);
      ReadStart(whole);
      while position + 1 < buffer.Length
        invariant Valid() && i <= |arrivals| && position < buffer.Length && |ring.Queue()| < BUFFER_SIZE
        invariant Continues(whole, keys, accepted, Read(ring.Queue(), arrivals, i, position, buffer.Length))
        invariant buffer[..position] == Typed(keys) && NEWLINE !in keys
        decreases |arrivals| - i, |ring.Queue()|
      {
        var c, next;
        ghost var more;
        LookConserves(ring.Queue(), arrivals, i);
        ReadStep(whole, keys, accepted, ring.Queue(), arrivals, i, position, buffer.Length);
        c, next, more := GetChar(arrivals, i);
        accepted := accepted + more;
        if c == None {
          return;
        }
        position := Edit(buffer, position, c.value, keys);
        i, keys := next, keys + [c.value];
        if c.value == NEWLINE {
          ended := true;
          return;
        }
      }
      ended := true;
      ReadFull(whole, keys, accepted, ring.Queue(), arrivals, i, position, buffer.Length);
    }

    /** What one key does to the line in the buffer. */
    method Edit(buffer: array<char>, position: nat, key: char, ghost keys: seq<char>) returns (after: nat)
      requires position < buffer.Length && buffer[..position] == Typed(keys)
      modifies buffer
      ensures after == Edited(position, key) && after <= buffer.Length && buffer[..after] == Typed(keys + [key])
    {
      TypedStep(keys, key);
      if key == BACKSPACE {
        return if position > 0 then position - 1 else 0;
      }
      buffer[position] := key;
      after := position + 1;
    }
  }
}
