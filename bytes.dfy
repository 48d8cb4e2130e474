/**
 * Go strings are byte sequences: `len`, indexing and slicing all count UTF-8
 * bytes. This module gives the byte type and the `strings.Split` / join pair
 * that the AT-URI helpers use.
 */
module ByteText {

  newtype Byte = b: int | 0 <= b < 0x100

  type Bytes = seq<Byte>

  const SLASH: Byte := 0x2F
  const AT: Byte := 0x40
  const HASH: Byte := 0x23

  /** The bytes of an ASCII string literal (used for the source's constants). */
  function Ascii(s: string): (r: Bytes)
    ensures |r| == |s|
  {
    seq(|s|, i requires 0 <= i < |s| => (s[i] as int % 0x100) as Byte)
  }

  /** Go's `\s`: tab, newline, form feed, carriage return and space (no vertical tab). */
  predicate IsSpace(b: Byte) {
    b == 0x09 || b == 0x0A || b == 0x0C || b == 0x0D || b == 0x20
  }

  predicate Free(s: Bytes, sep: Byte) {
    forall i :: 0 <= i < |s| ==> s[i] != sep
  }

  /** `strings.Split(s, sep)` for a one-byte separator: always at least one part. */
  function Split(s: Bytes, sep: Byte): (parts: seq<Bytes>)
    ensures |parts| >= 1
    decreases |s|
  {
    if |s| == 0 then [[]]
    else
      var rest := Split(s[1..], sep);
      if s[0] == sep then [[]] + rest
      else [[s[0]] + rest[0]] + rest[1..]
  }

  /** `strings.Join(parts, sep)`. */
  function Join(parts: seq<Bytes>, sep: Byte): Bytes
    requires |parts| >= 1
  {
    if |parts| == 1 then parts[0] else parts[0] + [sep] + Join(parts[1..], sep)
  }

  /** No part of a split contains the separator. */
  lemma {:induction false} SplitPartsFree(s: Bytes, sep: Byte)
    ensures forall k :: 0 <= k < |Split(s, sep)| ==> Free(Split(s, sep)[k], sep)
    decreases |s|
  {
    if |s| > 0 {
      SplitPartsFree(s[1..], sep);
    }
  }

  /** Prepending a byte to the first part prepends it to the join. */
  lemma JoinConsFirst(b: Byte, parts: seq<Bytes>, sep: Byte)
    requires |parts| >= 1
    ensures Join([[b] + parts[0]] + parts[1..], sep) == [b] + Join(parts, sep)
  {
    var ps := [[b] + parts[0]] + parts[1..];
    assert ps[1..] == parts[1..];
    if |parts| > 1 {
      assert ([b] + parts[0]) + [sep] + Join(parts[1..], sep)
          == [b] + (parts[0] + [sep] + Join(parts[1..], sep));
    }
  }

  /** Joining the parts of a split gives the input back. */
  lemma {:induction false} JoinSplit(s: Bytes, sep: Byte)
    ensures Join(Split(s, sep), sep) == s
    decreases |s|
  {
    if |s| > 0 {
      JoinSplit(s[1..], sep);
      var rest := Split(s[1..], sep);
      if s[0] != sep {
        JoinConsFirst(s[0], rest, sep);
      } else {
        assert ([[]] + rest)[1..] == rest;
      }
    }
  }

  /** Splitting a separator-free part followed by the separator peels that part off. */
  lemma {:induction false} SplitCons(a: Bytes, b: Bytes, sep: Byte)
    requires Free(a, sep)
    ensures Split(a + [sep] + b, sep) == [a] + Split(b, sep)
    decreases |a|
  {
    if |a| == 0 {
      assert a + [sep] + b == [sep] + b;
      assert ([sep] + b)[1..] == b;
    } else {
      SplitCons(a[1..], b, sep);
      assert (a + [sep] + b)[1..] == a[1..] + [sep] + b;
      assert [a[0]] + a[1..] == a;
    }
  }

  /** A separator-free sequence splits into itself alone. */
  lemma {:induction false} SplitFree(a: Bytes, sep: Byte)
    requires Free(a, sep)
    ensures Split(a, sep) == [a]
    decreases |a|
  {
    if |a| > 0 {
      SplitFree(a[1..], sep);
      assert [a[0]] + a[1..] == a;
    }
  }

  /** Splitting a join of separator-free parts gives the parts back. */
  lemma {:induction false} SplitJoin(parts: seq<Bytes>, sep: Byte)
    requires |parts| >= 1
    requires forall k :: 0 <= k < |parts| ==> Free(parts[k], sep)
    ensures Split(Join(parts, sep), sep) == parts
    decreases |parts|
  {
    if |parts| == 1 {
      SplitFree(parts[0], sep);
    } else {
      SplitJoin(parts[1..], sep);
      SplitCons(parts[0], Join(parts[1..], sep), sep);
    }
  }
}
