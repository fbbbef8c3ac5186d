/** The buffered console's byte stream (kernel/init/console_tx.cc), as values: what the device was
    given, the byte a producer's drain has taken and not yet pushed, and what the ring holds. */
module TxStream {
  type Byte = x: int | 0 <= x < 256

  const CR: Byte := 13
  const LF: Byte := 10

  /** `pushing` is set across a producer's push, `hand` being the byte it pushes. */
  datatype Tx = Tx(device: seq<Byte>, hand: seq<Byte>, ring: seq<Byte>, pushing: bool)

  /** A line as it goes out: every newline gets a carriage return in front. */
  function Expand(line: seq<Byte>, crlf: bool): seq<Byte> {
    if line == [] then []
    else (if crlf && line[0] == LF then [CR, LF] else [line[0]]) + Expand(line[1..], crlf)
  }

  lemma {:induction false} ExpandRaw(line: seq<Byte>)
    ensures Expand(line, false) == line
  {
    if line != [] {
      ExpandRaw(line[1..]);
    }
  }

  /** In what goes out every newline stands after a carriage return. */
  lemma {:induction false} ExpandPairs(line: seq<Byte>, i: nat)
    requires i < |Expand(line, true)| && Expand(line, true)[i] == LF
    ensures i > 0 && Expand(line, true)[i - 1] == CR
  {
    var k := if line[0] == LF then 2 else 1;
    if i >= k {
      ExpandPairs(line[1..], i - k);
    }
  }

  /** A terminal's reading of the bytes: a carriage return in front of a newline is not text. */
  function Collapse(out: seq<Byte>): seq<Byte> {
    if out == [] then []
    else if |out| > 1 && out[0] == CR && out[1] == LF then [LF] + Collapse(out[2..])
    else [out[0]] + Collapse(out[1..])
  }

  /** Read back, what went out is the line, whatever carriage returns it had of its own. */
  lemma {:induction false} ExpandBack(line: seq<Byte>)
    ensures Collapse(Expand(line, true)) == line
  {
    if line != [] {
      var rest := Expand(line[1..], true);
      ExpandBack(line[1..]);
      if line[0] == LF {
        assert ([CR, LF] + rest)[2..] == rest;
      } else {
        assert ([line[0]] + rest)[1..] == rest;
        if |rest| > 0 && rest[0] == LF {
          ExpandPairs(line[1..], 0);
        }
      }
    }
  }

  function Min(a: nat, b: nat): nat { if a <= b then a else b }

  /** All the bytes of the stream, oldest first. */
  function Stream(s: Tx): seq<Byte> { s.device + s.hand + s.ring }

  /** The first `n` bytes of the ring given to the device. */
  function Sent(s: Tx, n: nat): Tx
    requires n <= |s.ring|
  {
    s.(device := s.device + s.ring[..n], ring := s.ring[n..])
  }

  /** The ring emptied with nothing sent. */
  function Lost(s: Tx): Tx { s.(ring := []) }

  predicate Fits(s: Tx, room: nat, line: seq<Byte>, crlf: bool) { |s.ring| + |Expand(line, crlf)| <= room }

  /** A whole line or nothing; into an empty ring, or with none, it primes an idle device. */
  function Inserted(s: Tx, room: nat, line: seq<Byte>, crlf: bool, free: nat): Tx {
    if !Fits(s, room, line, crlf) then s
    else
      var t := s.(ring := s.ring + Expand(line, crlf));
      if (s.ring == [] || line == []) && !s.pushing && t.ring != [] && free > 0 then Sent(t, 1) else t
  }

  /** The oldest byte taken to be pushed: it has left the ring before the device has it. */
  function Taken(s: Tx): Tx
    requires s.ring != []
  {
    s.(hand := [s.ring[0]], ring := s.ring[1..], pushing := true)
  }

  function Pushed(s: Tx): Tx { s.(device := s.device + s.hand, hand := [], pushing := false) }

  /** Everything sent, or what a stuck channel did not take lost. Inside a push that never resumes,
      the byte in hand is lost too. `free` is how many pushes the device takes. */
  function Flushed(s: Tx, free: nat): Tx {
    var t := s.(hand := []);
    if free >= |s.ring| then Sent(t, |s.ring|) else Lost(Sent(t, free))
  }

  /** Whether an accepted line gives the device a byte at once: it may be idle, and nothing is at it. */
  predicate Primes(s: Tx, line: seq<Byte>, crlf: bool, free: nat) {
    (s.ring == [] || line == []) && !s.pushing && s.ring + Expand(line, crlf) != [] && free > 0
  }

  /** An accepted line is held whole behind what was there, but for the oldest byte where it primes. */
  lemma InsertedIs(s: Tx, room: nat, line: seq<Byte>, crlf: bool, free: nat)
    ensures var t, all := Inserted(s, room, line, crlf, free), s.ring + Expand(line, crlf);
            && t.hand == s.hand && t.pushing == s.pushing
            && (!Fits(s, room, line, crlf) ==> t == s)
            && (Fits(s, room, line, crlf) && !Primes(s, line, crlf, free) ==> t.device == s.device && t.ring == all)
            && (Fits(s, room, line, crlf) && Primes(s, line, crlf, free) ==>
                  t.device == s.device + [all[0]] && t.ring == all[1..])
  {
    hide Expand;
    var all := s.ring + Expand(line, crlf);
    if all != [] {
      assert all[..1] == [all[0]];
    }
  }

  ghost predicate TxOk(s: Tx, room: nat) {
    |s.hand| <= 1 && (s.hand != [] ==> s.pushing) && |s.ring| <= room
  }
}
