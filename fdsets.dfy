/**
 * The `select(2)`-style descriptor set of the chat server: `FDZero`, `FDSet`,
 * `FDClr` and `FDIsSet` over a `unix.FdSet`, whose `Bits` field is an array of
 * 32 words of 32 bits (1024 descriptors). Descriptor `fd` lives in word `fd / 32`
 * at bit `fd % 32`.
 *
 * Go stores the words as `int32`; the model stores the same bit patterns as
 * `bv32`. Go's `1 << 31` on an `int32` wraps to the sign bit, which is bit 31 of
 * the `bv32` word, so the two agree bit for bit.
 */
module FdSets {

  /** `FD_SETSIZE`: the number of descriptors a set holds. */
  const FdSetSize: int := 1024
  /** The number of words in `Bits`. */
  const WordCount: int := 32
  /** The number of bits in one word. */
  const WordBits: int := 32

  /** A descriptor the set can hold without indexing outside `Bits`. */
  predicate InRange(fd: int)
  {
    0 <= fd < FdSetSize
  }

  /** The one-bit mask `1 << b` of a word. */
  function Mask(b: int): (m: bv32)
    requires 0 <= b < WordBits
  {
    (1 as bv32) << b
  }

  /** Whether bit `b` of word `w` is set. */
  predicate HasBit(ws: seq<bv32>, w: int, b: int)
    requires |ws| == WordCount && 0 <= w < WordCount && 0 <= b < WordBits
  {
    ws[w] & Mask(b) != 0
  }

  /** The words after or-ing `1 << b` into word `w`. */
  function WithBit(ws: seq<bv32>, w: int, b: int): (r: seq<bv32>)
    requires |ws| == WordCount && 0 <= w < WordCount && 0 <= b < WordBits
    ensures |r| == WordCount
  {
    ws[w := ws[w] | Mask(b)]
  }

  /** The words after and-not-ing `1 << b` out of word `w` (Go's `&^=`). */
  function WithoutBit(ws: seq<bv32>, w: int, b: int): (r: seq<bv32>)
    requires |ws| == WordCount && 0 <= w < WordCount && 0 <= b < WordBits
    ensures |r| == WordCount
  {
    ws[w := ws[w] & !Mask(b)]
  }

  /** Whether `fd` is in the set whose words are `ws`: `FDIsSet` on a value. */
  predicate HasFd(ws: seq<bv32>, fd: int)
    requires |ws| == WordCount && InRange(fd)
  {
    HasBit(ws, fd / WordBits, fd % WordBits)
  }

  /** The descriptors present in the words `ws`. */
  ghost function Members(ws: seq<bv32>): set<int>
    requires |ws| == WordCount
  {
    set fd | 0 <= fd < FdSetSize && HasFd(ws, fd)
  }

  /** The words of a freshly zeroed set. */
  function ZeroWords(): (ws: seq<bv32>)
    ensures |ws| == WordCount
  {
    seq(WordCount, _ => 0)
  }

  /** The words after `FDSet(fd, p)`: word `fd / 32` gains bit `fd % 32`. */
  function WithFd(ws: seq<bv32>, fd: int): (r: seq<bv32>)
    requires |ws| == WordCount && InRange(fd)
    ensures |r| == WordCount
  {
    WithBit(ws, fd / WordBits, fd % WordBits)
  }

  /** The words after `FDClr(fd, p)`: word `fd / 32` loses bit `fd % 32`. */
  function WithoutFd(ws: seq<bv32>, fd: int): (r: seq<bv32>)
    requires |ws| == WordCount && InRange(fd)
    ensures |r| == WordCount
  {
    WithoutBit(ws, fd / WordBits, fd % WordBits)
  }

  /** Distinct bit positions have disjoint masks. */
  lemma MasksDisjoint(b: int, c: int)
    requires 0 <= b < WordBits && 0 <= c < WordBits && b != c
    ensures Mask(b) & Mask(c) == 0
  {
  }

  /** Setting bit `b` of word `w` leaves every other slot `(v, c)` as it was. */
  lemma SetBitFrame(ws: seq<bv32>, w: int, b: int, v: int, c: int)
    requires |ws| == WordCount && 0 <= w < WordCount && 0 <= b < WordBits
    requires 0 <= v < WordCount && 0 <= c < WordBits && (v != w || c != b)
    ensures HasBit(WithBit(ws, w, b), v, c) == HasBit(ws, v, c)
  {
    if v == w {
      MasksDisjoint(b, c);
    }
  }

  /** Clearing bit `b` of word `w` leaves every other slot `(v, c)` as it was. */
  lemma ClearBitFrame(ws: seq<bv32>, w: int, b: int, v: int, c: int)
    requires |ws| == WordCount && 0 <= w < WordCount && 0 <= b < WordBits
    requires 0 <= v < WordCount && 0 <= c < WordBits && (v != w || c != b)
    ensures HasBit(WithoutBit(ws, w, b), v, c) == HasBit(ws, v, c)
  {
    if v == w {
      MasksDisjoint(b, c);
    }
  }

  /** Two descriptors of the set that share a word and a bit are the same descriptor. */
  lemma SameSlot(f: int, g: int)
    requires InRange(f) && InRange(g)
    requires f / WordBits == g / WordBits && f % WordBits == g % WordBits
    ensures f == g
  {
  }

  /** After `FDSet(fd, p)`, `FDIsSet(g, p)` holds exactly for `fd` and for what was set before. */
  lemma HasFdWithFd(ws: seq<bv32>, fd: int, g: int)
    requires |ws| == WordCount && InRange(fd) && InRange(g)
    ensures HasFd(WithFd(ws, fd), g) == (g == fd || HasFd(ws, g))
  {
    if g != fd {
      if g / WordBits == fd / WordBits && g % WordBits == fd % WordBits {
        SameSlot(g, fd);
      }
      SetBitFrame(ws, fd / WordBits, fd % WordBits, g / WordBits, g % WordBits);
    }
  }

  /** After `FDClr(fd, p)`, `FDIsSet(g, p)` holds exactly for what was set before, except `fd`. */
  lemma HasFdWithoutFd(ws: seq<bv32>, fd: int, g: int)
    requires |ws| == WordCount && InRange(fd) && InRange(g)
    ensures HasFd(WithoutFd(ws, fd), g) == (g != fd && HasFd(ws, g))
  {
    if g != fd {
      if g / WordBits == fd / WordBits && g % WordBits == fd % WordBits {
        SameSlot(g, fd);
      }
      ClearBitFrame(ws, fd / WordBits, fd % WordBits, g / WordBits, g % WordBits);
    }
  }

  /** `FDSet` adds exactly `fd` to the set. */
  lemma MembersWithFd(ws: seq<bv32>, fd: int)
    requires |ws| == WordCount && InRange(fd)
    ensures Members(WithFd(ws, fd)) == Members(ws) + {fd}
  {
    forall g | 0 <= g < FdSetSize
      ensures g in Members(WithFd(ws, fd)) <==> g in Members(ws) + {fd}
    {
      HasFdWithFd(ws, fd, g);
    }
  }

  /** `FDClr` removes exactly `fd` from the set; on an absent `fd` it changes nothing. */
  lemma MembersWithoutFd(ws: seq<bv32>, fd: int)
    requires |ws| == WordCount && InRange(fd)
    ensures Members(WithoutFd(ws, fd)) == Members(ws) - {fd}
  {
    forall g | 0 <= g < FdSetSize
      ensures g in Members(WithoutFd(ws, fd)) <==> g in Members(ws) - {fd}
    {
      HasFdWithoutFd(ws, fd, g);
    }
  }

  /** After `FDZero`, no descriptor is set. */
  lemma MembersZero()
    ensures Members(ZeroWords()) == {}
  {
    forall g | 0 <= g < FdSetSize
      ensures g !in Members(ZeroWords())
    {
      assert ZeroWords()[g / WordBits] == 0;
    }
  }

  /** `FDSet` and `FDClr` are idempotent: applying either twice equals applying it once. */
  lemma SetAndClearIdempotent(ws: seq<bv32>, fd: int)
    requires |ws| == WordCount && InRange(fd)
    ensures WithFd(WithFd(ws, fd), fd) == WithFd(ws, fd)
    ensures WithoutFd(WithoutFd(ws, fd), fd) == WithoutFd(ws, fd)
  {
  }

  /** The `unix.FdSet` value, updated in place through the pointer the Go functions take. */
  class FdSet {
    /** `Bits`: 32 words of 32 bits. */
    const bits: array<bv32>

    ghost predicate Valid()
    {
      bits.Length == WordCount
    }

    /** The descriptors currently in the set. */
    ghost function Contents(): set<int>
      reads bits
      requires Valid()
    {
      Members(bits[..])
    }

    /** A zero-valued `unix.FdSet`. */
    constructor ()
      ensures Valid() && fresh(bits)
      ensures bits[..] == ZeroWords() && Contents() == {}
    {
      bits := new bv32[WordCount](_ => 0);
      new;
      assert bits[..] == ZeroWords();
      MembersZero();
    }

    /** `FDZero`: every word becomes zero, so the set is empty. */
    method Zero()
      requires Valid()
      modifies bits
      ensures Valid()
      ensures bits[..] == ZeroWords() && Contents() == {}
    {
      forall i | 0 <= i < bits.Length {
        bits[i] := 0;
      }
      assert bits[..] == ZeroWords();
      MembersZero();
    }

    /** `FDSet`: sets bit `fd % 32` of word `fd / 32`; every other word is untouched. */
    method Set(fd: int)
      requires Valid() && InRange(fd)
      modifies bits
      ensures Valid()
      ensures bits[..] == WithFd(old(bits[..]), fd)
      ensures forall i :: 0 <= i < WordCount && i != fd / WordBits ==> bits[i] == old(bits[i])
      ensures Contents() == old(Contents()) + {fd}
    {
      bits[fd / WordBits] := bits[fd / WordBits] | Mask(fd % WordBits);
      MembersWithFd(old(bits[..]), fd);
    }

    /** `FDClr`: clears bit `fd % 32` of word `fd / 32`; every other word is untouched. */
    method Clr(fd: int)
      requires Valid() && InRange(fd)
      modifies bits
      ensures Valid()
      ensures bits[..] == WithoutFd(old(bits[..]), fd)
      ensures forall i :: 0 <= i < WordCount && i != fd / WordBits ==> bits[i] == old(bits[i])
      ensures Contents() == old(Contents()) - {fd}
    {
      bits[fd / WordBits] := bits[fd / WordBits] & !Mask(fd % WordBits);
      MembersWithoutFd(old(bits[..]), fd);
    }

    /** `FDIsSet`: whether `fd` is in the set. */
    predicate IsSet(fd: int)
      reads bits
      requires Valid() && InRange(fd)
      ensures IsSet(fd) <==> fd in Contents()
    {
      bits[fd / WordBits] & Mask(fd % WordBits) != 0
    }
  }

  // The descriptor arithmetic exactly as Go evaluates it, for any `int`.

  /** Go's `fd / 32`, which truncates toward zero. */
  function GoWordIndex(fd: int): (w: int)
    ensures fd >= 0 ==> w == fd / WordBits
    ensures -WordBits < fd < 0 ==> w == 0
  {
    if fd >= 0 then fd / WordBits else -((-fd) / WordBits)
  }

  /** Go's `uint(fd) % 32`: `fd` reinterpreted as an unsigned 64-bit integer. */
  function GoBitIndex(fd: int): (b: int)
    ensures 0 <= b < WordBits
  {
    (fd % 0x1_0000_0000_0000_0000) % WordBits
  }

  /** `Bits[GoWordIndex(fd)]` is in range, so the Go functions do not panic. */
  predicate GoIndexInRange(fd: int)
  {
    0 <= GoWordIndex(fd) < WordCount
  }

  /** `FDSet(fd, p)` as written, on every descriptor it accepts without panicking. */
  function WithFdAsWritten(ws: seq<bv32>, fd: int): (r: seq<bv32>)
    requires |ws| == WordCount && GoIndexInRange(fd)
    ensures |r| == WordCount
  {
    WithBit(ws, GoWordIndex(fd), GoBitIndex(fd))
  }

  /** `FDClr(fd, p)` as written, on every descriptor it accepts without panicking. */
  function WithoutFdAsWritten(ws: seq<bv32>, fd: int): (r: seq<bv32>)
    requires |ws| == WordCount && GoIndexInRange(fd)
    ensures |r| == WordCount
  {
    WithoutBit(ws, GoWordIndex(fd), GoBitIndex(fd))
  }

  /** `FDIsSet(fd, p)` as written, on every descriptor it accepts without panicking. */
  predicate HasFdAsWritten(ws: seq<bv32>, fd: int)
    requires |ws| == WordCount && GoIndexInRange(fd)
  {
    HasBit(ws, GoWordIndex(fd), GoBitIndex(fd))
  }

  /** The Go functions index `Bits` safely exactly for `-31 <= fd < 1024`. */
  lemma GoIndexInRangeExactly(fd: int)
    ensures GoIndexInRange(fd) <==> -WordBits < fd < FdSetSize
  {
  }

  /** On the descriptors the set is meant for, Go's arithmetic and the model's agree. */
  lemma GoArithmeticAgrees(ws: seq<bv32>, fd: int)
    requires |ws| == WordCount && InRange(fd)
    ensures GoIndexInRange(fd)
    ensures GoWordIndex(fd) == fd / WordBits && GoBitIndex(fd) == fd % WordBits
    ensures WithFdAsWritten(ws, fd) == WithFd(ws, fd)
    ensures WithoutFdAsWritten(ws, fd) == WithoutFd(ws, fd)
    ensures HasFdAsWritten(ws, fd) == HasFd(ws, fd)
  {
    assert fd % 0x1_0000_0000_0000_0000 == fd;
  }

  /** A descriptor from -31 to -1 has, in Go's arithmetic, the word and bit of `fd + 32`. */
  lemma NegativeFdSlot(fd: int)
    requires -WordBits < fd < 0
    ensures GoIndexInRange(fd)
    ensures GoWordIndex(fd) == (fd + WordBits) / WordBits && GoBitIndex(fd) == (fd + WordBits) % WordBits
  {
    assert fd % 0x1_0000_0000_0000_0000 == fd + 0x1_0000_0000_0000_0000;
  }

  /**
   * A negative descriptor from -31 to -1 does not panic in `FDSet`: it lands on the
   * slot of `fd + 32`. So `FDSet(-1, p)` marks descriptor 31 as set.
   */
  lemma NegativeFdAliases(ws: seq<bv32>, fd: int)
    requires |ws| == WordCount && -WordBits < fd < 0
    ensures GoIndexInRange(fd)
    ensures WithFdAsWritten(ws, fd) == WithFd(ws, fd + WordBits)
    ensures HasFd(WithFdAsWritten(ws, fd), fd + WordBits)
  {
    NegativeFdSlot(fd);
    HasFdWithFd(ws, fd + WordBits, fd + WordBits);
  }

  /** `FDClr(-1, p)` does not panic either: it removes descriptor 31. */
  lemma NegativeFdClears(ws: seq<bv32>, fd: int)
    requires |ws| == WordCount && -WordBits < fd < 0
    ensures GoIndexInRange(fd)
    ensures WithoutFdAsWritten(ws, fd) == WithoutFd(ws, fd + WordBits)
    ensures !HasFd(WithoutFdAsWritten(ws, fd), fd + WordBits)
  {
    NegativeFdSlot(fd);
    HasFdWithoutFd(ws, fd + WordBits, fd + WordBits);
  }

  /** `FDIsSet(-1, p)` does not panic either: it reports whether descriptor 31 is set. */
  lemma NegativeFdReads(ws: seq<bv32>, fd: int)
    requires |ws| == WordCount && -WordBits < fd < 0
    ensures GoIndexInRange(fd)
    ensures HasFdAsWritten(ws, fd) == HasFd(ws, fd + WordBits)
  {
    NegativeFdSlot(fd);
  }
}
