/** The ring buffer between the logging threads and the output thread. */
module AsyncRing {

  /** How much of a log a bounded queue takes: all of it, or what fills the queue. */
  function Accepted(queue: seq<char>, log: seq<char>, capacity: nat): (n: nat)
    requires |queue| <= capacity
    ensures n <= |log| && |queue| + n <= capacity
    ensures n == |log| || |queue| + n == capacity
  {
    if capacity - |queue| <= |log| then capacity - |queue| else |log|
  }

  function Put(queue: seq<char>, log: seq<char>, capacity: nat): (r: seq<char>)
    requires |queue| <= capacity
    ensures |r| <= capacity
  {
    queue + log[..Accepted(queue, log, capacity)]
  }

  /** How much of a queue is taken: as much as asked for, or all of it. */
  function Delivered(queue: seq<char>, size: nat): (n: nat)
    ensures n <= |queue| && n <= size
    ensures n == |queue| || n == size
  {
    if |queue| <= size then |queue| else size
  }

  /** Buffer position i, counted round the end. */
  function Wrap(i: nat, length: nat): nat {
    if i < length then i else i - length
  }

  /** n bytes from `start` on, going round the end of the buffer. */
  function Stretch(buffer: seq<char>, start: nat, n: nat): (r: seq<char>)
    requires start < |buffer| && n <= |buffer|
    ensures |r| == n
  {
    seq(n, i requires 0 <= i < n => buffer[Wrap(start + i, |buffer|)])
  }

  /** A stretch is two shorter ones, one after the other. */
  lemma StretchSplits(buffer: seq<char>, start: nat, m: nat, n: nat)
    requires start < |buffer| && m + n <= |buffer|
    ensures Wrap(start + m, |buffer|) < |buffer|
    ensures Stretch(buffer, start, m + n) == Stretch(buffer, start, m) + Stretch(buffer, Wrap(start + m, |buffer|), n)
  {
    var whole := Stretch(buffer, start, m + n);
    var head, tail := Stretch(buffer, start, m), Stretch(buffer, Wrap(start + m, |buffer|), n);
    forall i | 0 <= i < m + n ensures whole[i] == (head + tail)[i] {
      if m <= i {
        assert Wrap(Wrap(start + m, |buffer|) + (i - m), |buffer|) == Wrap(start + i, |buffer|);
        assert tail[i - m] == buffer[Wrap(start + i, |buffer|)];
      }
    }
  }

  /** Whether position i lies in the stretch. */
  predicate Within(i: int, start: nat, n: nat, length: nat) {
    start <= i < start + n || i + length < start + n
  }

  /** Writing behind the used stretch makes it longer and leaves it alone. */
  lemma Appended(before: seq<char>, after: seq<char>, start: nat, used: nat, log: seq<char>)
    requires |before| == |after| && start < |before| && used + |log| <= |before|
    requires var w := Wrap(start + used, |before|);
      w < |before| && Stretch(after, w, |log|) == log &&
      forall i | 0 <= i < |before| && !Within(i, w, |log|, |before|) :: after[i] == before[i]
    ensures Stretch(after, start, used + |log|) == Stretch(before, start, used) + log
  {
    StretchSplits(after, start, used, |log|);
    var kept, now := Stretch(before, start, used), Stretch(after, start, used);
    forall i | 0 <= i < used ensures now[i] == kept[i] {
      assert !Within(Wrap(start + i, |before|), Wrap(start + used, |before|), |log|, |before|);
    }
    assert now == kept;
  }

  /** Indices in range, and the flags tell full from empty exactly when the indices meet. */
  predicate WellFormed(w: nat, r: nat, full: bool, empty: bool, length: nat) {
    w < length && r < length && (w == r <==> full || empty) && !(full && empty)
  }

  function UsedBy(w: nat, r: nat, full: bool, empty: bool, length: nat): nat
    requires w < length && r < length
  {
    if w > r then w - r
    else if !full && !empty then length - (r - w)
    else if full then length
    else 0
  }

  /** The index and flag updates of a put count its bytes; an empty put into an empty ring breaks them. */
  lemma PutIndices(w: nat, r: nat, full: bool, empty: bool, length: nat, size: nat, log: nat)
    requires WellFormed(w, r, full, empty, length)
    requires var space := length - UsedBy(w, r, full, empty, length);
      0 < space && size == if space <= log then space else log
    ensures var used := UsedBy(w, r, full, empty, length);
      var w', full' := Wrap(w + size, length), full || length - used <= log;
      w == Wrap(r + used, length) && w' < length &&
      (WellFormed(w', r, full', false, length) <==> 0 < log || 0 < used) &&
      (0 < log || 0 < used ==> UsedBy(w', r, full', false, length) == used + size) &&
      (log == 0 && used == 0 ==> UsedBy(w', r, full', false, length) == length)
  {
  }

  lemma GetIndices(w: nat, r: nat, full: bool, empty: bool, length: nat, size: nat)
    requires WellFormed(w, r, full, empty, length)
    requires 0 < size <= UsedBy(w, r, full, empty, length)
    ensures var used := UsedBy(w, r, full, empty, length);
      var r' := Wrap(r + size, length);
      r' < length && WellFormed(w, r', false, empty || size == used, length) &&
      UsedBy(w, r', false, empty || size == used, length) == used - size
  {
  }

  class Ring {
    const logBuf: array<char>
    var writeIndex: nat
    var readIndex: nat
    var bufIsFull: bool
    var bufIsEmpty: bool

    predicate Valid()
      reads this
    {
      WellFormed(writeIndex, readIndex, bufIsFull, bufIsEmpty, logBuf.Length)
    }

    predicate InRange()
      reads this
    {
      writeIndex < logBuf.Length && readIndex < logBuf.Length
    }

    function Used(): nat
      reads this
      requires InRange()
    {
      UsedBy(writeIndex, readIndex, bufIsFull, bufIsEmpty, logBuf.Length)
    }

    /** The abstract queue: the used stretch from the read index, round the end of the buffer. */
    ghost function Contents(): (q: seq<char>)
      reads this, logBuf
      requires Valid()
      ensures |q| == Used() <= logBuf.Length
    {
      Stretch(logBuf[..], readIndex, Used())
    }

    constructor (capacity: nat)
      requires 0 < capacity
      ensures Valid() && Contents() == [] && logBuf.Length == capacity && fresh(logBuf)
    {
      logBuf := new char[capacity](_ => '\0');
      writeIndex, readIndex := 0, 0;
      bufIsFull, bufIsEmpty := false, true;
    }

    method GetBufUsed() returns (used: nat)
      requires Valid()
      ensures used == |Contents()|
    {
      if writeIndex > readIndex {
        used := writeIndex - readIndex;
      } else {
        if !bufIsFull && !bufIsEmpty {
          used := logBuf.Length - (readIndex - writeIndex);
        } else if bufIsFull {
          used := logBuf.Length;
        } else {
          used := 0;
        }
      }
    }

    method GetBufSpace() returns (space: nat)
      requires Valid()
      ensures space == logBuf.Length - |Contents()|
    {
      var used := GetBufUsed();
      space := logBuf.Length - used;
    }

    /**
     Appends what fits. The ring stays well formed exactly when the log or the queue is
     non-empty: an empty log put into an empty ring clears the empty flag, and the ring
     then claims to be full of bytes nobody logged.
     */
    method PutLog(log: seq<char>) returns (put: nat)
      requires Valid()
      modifies this, logBuf
      ensures put == Accepted(old(Contents()), log, logBuf.Length)
      ensures put <= |log| && old(|Contents()|) + put <= logBuf.Length
      ensures put == |log| || old(|Contents()|) + put == logBuf.Length
      ensures Valid() ==> Contents() == old(Contents()) + log[..put]
      ensures Valid() <==> log != [] || old(Contents()) != []
      ensures Valid() ==> Contents() == Put(old(Contents()), log, logBuf.Length)
      ensures !Valid() ==> InRange() && Used() == logBuf.Length
    {
      var size := |log|;
      var space := GetBufSpace();
      ghost var queue, before := Contents(), logBuf[..];
      if space == 0 {
        assert Put(queue, log, logBuf.Length) == queue;
        return 0;
      }
      if space <= size {
        size := space;
        bufIsFull := true;
      }
      assert logBuf[..] == before;
      PutIndices(writeIndex, readIndex, old(bufIsFull), bufIsEmpty, logBuf.Length, size, |log|);
      WriteAround(log[..size]);
      bufIsEmpty := false;
      put := size;
      Appended(before, logBuf[..], readIndex, |queue|, log[..size]);
    }

    /** Copies the bytes in at the write index, in one piece or two, and moves the index on. */
    method WriteAround(log: seq<char>)
      requires InRange() && |log| <= logBuf.Length
      modifies this`writeIndex, logBuf
      ensures writeIndex == Wrap(old(writeIndex) + |log|, logBuf.Length) < logBuf.Length
      ensures Stretch(logBuf[..], old(writeIndex), |log|) == log
      ensures forall i | 0 <= i < logBuf.Length && !Within(i, old(writeIndex), |log|, logBuf.Length) ::
        logBuf[i] == old(logBuf[i])
    {
      var size := |log|;
      if writeIndex + size < logBuf.Length {
        forall k | 0 <= k < size {
          logBuf[writeIndex + k] := log[k];
        }
        writeIndex := writeIndex + size;
      } else {
        var first := logBuf.Length - writeIndex;
        forall k | 0 <= k < first {
          logBuf[writeIndex + k] := log[k];
        }
        forall k | 0 <= k < size - first {
          logBuf[k] := log[first + k];
        }
        writeIndex := writeIndex + size - logBuf.Length;
      }
      ghost var written := Stretch(logBuf[..], old(writeIndex), size);
      forall i | 0 <= i < size ensures written[i] == log[i] {
        assert written[i] == logBuf[Wrap(old(writeIndex) + i, logBuf.Length)];
      }
    }

    /** Takes the oldest bytes, at most as many as asked for and as the target holds. */
    method GetLog(log: array<char>, size0: nat) returns (size: nat)
      requires Valid() && size0 <= log.Length && log != logBuf
      modifies this, log
      ensures Valid()
      ensures size == Delivered(old(Contents()), size0)
      ensures size <= size0 && size <= old(|Contents()|)
      ensures size == size0 || Contents() == []
      ensures log[..size] == old(Contents())[..size]
      ensures forall k | size <= k < log.Length :: log[k] == old(log[k])
      ensures Contents() == old(Contents())[size..]
    {
      size := size0;
      var used := GetBufUsed();
      ghost var buffer := logBuf[..];
      if used == 0 || size == 0 {
        return 0;
      }
      if used <= size {
        size := used;
        bufIsEmpty := true;
      }
      GetIndices(writeIndex, readIndex, bufIsFull, old(bufIsEmpty), logBuf.Length, size);
      assert logBuf[..] == buffer;
      StretchSplits(buffer, readIndex, size, used - size);
      ReadAround(log, size);
      bufIsFull := false;
      assert logBuf[..] == buffer;
    }

    /** Copies bytes out from the read index, in one piece or two, and moves the index on. */
    method ReadAround(log: array<char>, size: nat)
      requires InRange() && size <= logBuf.Length && size <= log.Length && log != logBuf
      modifies this`readIndex, log
      ensures readIndex == Wrap(old(readIndex) + size, logBuf.Length) < logBuf.Length
      ensures log[..size] == Stretch(logBuf[..], old(readIndex), size)
      ensures forall k | size <= k < log.Length :: log[k] == old(log[k])
    {
      if readIndex + size < logBuf.Length {
        forall k | 0 <= k < size {
          log[k] := logBuf[readIndex + k];
        }
        readIndex := readIndex + size;
      } else {
        var first := logBuf.Length - readIndex;
        forall k | 0 <= k < first {
          log[k] := logBuf[readIndex + k];
        }
        forall k | 0 <= k < size - first {
          log[first + k] := logBuf[k];
        }
        readIndex := readIndex + size - logBuf.Length;
      }
      ghost var taken := Stretch(logBuf[..], old(readIndex), size);
      forall i | 0 <= i < size ensures taken[i] == log[i] {
        assert taken[i] == logBuf[Wrap(old(readIndex) + i, logBuf.Length)];
      }
    }
  }
}
