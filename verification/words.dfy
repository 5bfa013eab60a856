/**
 * Bytes and big-endian unsigned 32-bit words, as Ruby's String#unpack('N*')
 * and Array#pack('N*') read and write them.
 */
module Words {

  newtype uint8 = x: int | 0 <= x < 0x100

  /** A Ruby binary string. */
  type Bytes = seq<uint8>

  const WordModulus: nat := 0x1_0000_0000

  /** The word that four bytes spell, most significant byte first (directive 'N'). */
  function WordOf(b0: uint8, b1: uint8, b2: uint8, b3: uint8): (w: nat)
    ensures w < WordModulus
  {
    ((b0 as nat * 0x100 + b1 as nat) * 0x100 + b2 as nat) * 0x100 + b3 as nat
  }

  /** The four bytes that directive 'N' writes for an integer: its low 32 bits, most significant byte first. */
  function WordBytes(n: nat): (b: Bytes)
    ensures |b| == 4
  {
    var v := n % WordModulus;
    var q1 := v / 0x100;
    var q2 := q1 / 0x100;
    var q3 := q2 / 0x100;
    [(q3 % 0x100) as uint8, (q2 % 0x100) as uint8, (q1 % 0x100) as uint8, (v % 0x100) as uint8]
  }

  /** Dividing x * 256 + b by 256 recovers x, and the remainder is b. */
  lemma DivModByte(x: nat, b: nat)
    requires b < 0x100
    ensures (x * 0x100 + b) / 0x100 == x && (x * 0x100 + b) % 0x100 == b
  {
  }

  /** String#unpack('N*'): one word per complete group of four bytes; 1 to 3 trailing bytes are ignored. */
  function ReadWords(d: Bytes): (ws: seq<nat>)
    ensures |ws| == |d| / 4
    decreases |d|
  {
    if |d| < 4 then [] else [WordOf(d[0], d[1], d[2], d[3])] + ReadWords(d[4..])
  }

  /** Array#pack('N*'): four bytes per integer, in order. */
  function WriteWords(ws: seq<nat>): (d: Bytes)
    ensures |d| == 4 * |ws|
  {
    if ws == [] then [] else WordBytes(ws[0]) + WriteWords(ws[1..])
  }

  /** Writing a word that was read gives the same four bytes back. */
  lemma WordBytesOf(b0: uint8, b1: uint8, b2: uint8, b3: uint8)
    ensures WordBytes(WordOf(b0, b1, b2, b3)) == [b0, b1, b2, b3]
  {
    var hi := b0 as nat * 0x100 + b1 as nat;
    var mid := hi * 0x100 + b2 as nat;
    DivModByte(mid, b3 as nat);
    DivModByte(hi, b2 as nat);
    DivModByte(b0 as nat, b1 as nat);
  }

  /** Every word read is below 2^32, and word i comes from bytes 4i to 4i+3. */
  lemma {:induction false} ReadWordsAt(d: Bytes, i: nat)
    requires i < |d| / 4
    ensures ReadWords(d)[i] < WordModulus
    ensures ReadWords(d)[i] == WordOf(d[4 * i], d[4 * i + 1], d[4 * i + 2], d[4 * i + 3])
    decreases i
  {
    if i > 0 {
      ReadWordsAt(d[4..], i - 1);
    }
  }

  /** Integer i of the list is written at bytes 4i to 4i+3. */
  lemma {:induction false} WriteWordsAt(ws: seq<nat>, i: nat)
    requires i < |ws|
    ensures WriteWords(ws)[4 * i .. 4 * i + 4] == WordBytes(ws[i])
    decreases i
  {
    if i > 0 {
      WriteWordsAt(ws[1..], i - 1);
      assert WriteWords(ws)[4 * i .. 4 * i + 4] == WriteWords(ws[1..])[4 * (i - 1) .. 4 * (i - 1) + 4];
    }
  }

  /** Reading then writing reproduces the input except the 1 to 3 bytes that do not fill a word. */
  lemma {:induction false} WriteReadWords(d: Bytes)
    ensures WriteWords(ReadWords(d)) == d[..|d| / 4 * 4]
    decreases |d|
  {
    if |d| >= 4 {
      WriteReadWords(d[4..]);
      WordBytesOf(d[0], d[1], d[2], d[3]);
      assert d[4..][..|d[4..]| / 4 * 4] == d[4 .. |d| / 4 * 4];
      assert d[..|d| / 4 * 4] == d[..4] + d[4 .. |d| / 4 * 4];
    }
  }
}
