/** Values shared by every part of the model. */
module Basics {

  /** A Go byte; strings and byte slices are sequences of these. */
  newtype byte = x: int | 0 <= x < 256

  type Bytes = seq<byte>

  /** A command: its name followed by its arguments. */
  type Command = seq<Bytes>

  datatype Option<+T> = None | Some(value: T)

  const CR: byte := 13
  const LF: byte := 10
  const CRLF: Bytes := [CR, LF]

  /** ASCII upper case; the only case folding the modelled comparisons depend on. */
  function Upper(b: byte): byte {
    if 97 <= b <= 122 then b - 32 else b
  }

  function ToUpper(s: Bytes): Bytes {
    seq(|s|, i requires 0 <= i < |s| => Upper(s[i]))
  }

  const NOOP: Bytes := [78, 79, 79, 80]

  /** A tombstone: it holds its timestamp but changes no data. */
  predicate IsNoop(cmd: Command) {
    cmd != [] && ToUpper(cmd[0]) == NOOP
  }

  // Regroupings of byte sequences, stated apart so that their users need not unfold anything.

  lemma HeaderParts(p: byte, f: Bytes, body: Bytes, post: Bytes)
    ensures var s := [p] + f + CRLF + body + post;
            s != [] && s[0] == p && s[1..] == f + (CRLF + (body + post))
  {}

  lemma SliceOfSlice(s: Bytes, i: nat, j: nat)
    requires i + j <= |s|
    ensures s[i..][j..] == s[i + j..]
    ensures s[i..][..j] == s[i..i + j]
  {}

  lemma DropHead(head: Bytes, tail: Bytes)
    ensures (head + tail)[|head|..] == tail && (head + tail)[..|head|] == head
  {}

  lemma Assoc(a: Bytes, b: Bytes, c: Bytes)
    ensures a + b + c == a + (b + c)
  {}
}
