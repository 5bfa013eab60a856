/**
 * Key#unpack and Key#pack: binary data as colon-separated base-36 numerals
 * of its big-endian 32-bit words, and back. (The names are the source's:
 * unpack turns bytes into text, pack turns text into bytes.)
 */
module WordPacking {
  import opened Words
  import opened Radix36
  import opened RubyStrings

  /** The base-36 numeral of each word. */
  function Numerals(ws: seq<nat>): (ns: seq<string>)
    ensures |ns| == |ws|
    ensures forall i | 0 <= i < |ws| :: ns[i] == ToBase36(ws[i])
  {
    seq(|ws|, i requires 0 <= i < |ws| => ToBase36(ws[i]))
  }

  /** String#to_i(36) of each token. */
  function TokenValues(tokens: seq<string>): (vs: seq<nat>)
    ensures |vs| == |tokens|
    ensures forall i | 0 <= i < |tokens| :: vs[i] == ToI(tokens[i])
  {
    seq(|tokens|, i requires 0 <= i < |tokens| => ToI(tokens[i]))
  }

  /**
   * Key#unpack: the complete big-endian 32-bit words of the data, each
   * written as its lower-case base-36 numeral, joined with ':'. The text
   * uses only base-36 digits and colons, and data shorter than one word
   * gives the empty text.
   */
  function Unpack(data: Bytes): (text: string)
    ensures forall k | 0 <= k < |text| :: text[k] == ':' || IsLowerDigit(text[k])
    ensures |data| < 4 ==> text == ""
  {
    var ns := Numerals(ReadWords(data));
    var text := Join(ns, ':');
    assert forall k | 0 <= k < |text| :: text[k] == ':' || IsLowerDigit(text[k]) by {
      forall k | 0 <= k < |text| ensures text[k] == ':' || IsLowerDigit(text[k]) {
        JoinMember(ns, ':', k);
      }
    }
    text
  }

  /**
   * Key#pack: the text cut at each ':' (trailing empty fields dropped), each
   * token read as a base-36 number, written as four bytes per token in token
   * order: bytes 4i to 4i+3 are the low 32 bits of token i's value, big-endian.
   */
  function Pack(s: string): (data: Bytes)
    ensures |data| == 4 * |Split(s, ':')|
    ensures forall i | 0 <= i < |Split(s, ':')| ::
      data[4 * i .. 4 * i + 4] == WordBytes(ToI(Split(s, ':')[i]))
  {
    var vs := TokenValues(Split(s, ':'));
    var data := WriteWords(vs);
    assert forall i | 0 <= i < |vs| :: data[4 * i .. 4 * i + 4] == WordBytes(ToI(Split(s, ':')[i])) by {
      forall i | 0 <= i < |vs| ensures data[4 * i .. 4 * i + 4] == WordBytes(ToI(Split(s, ':')[i])) {
        WriteWordsAt(vs, i);
      }
    }
    data
  }

  /**
   * unpack writes one token per complete 32-bit word of the data, in order:
   * token i is the lower-case base-36 numeral of word i, a value below 2^32.
   */
  lemma UnpackTokens(data: Bytes)
    ensures var tokens := Split(Unpack(data), ':');
      |tokens| == |data| / 4 &&
      forall i | 0 <= i < |tokens| ::
        ReadWords(data)[i] < WordModulus &&
        ReadWords(data)[i] == WordOf(data[4 * i], data[4 * i + 1], data[4 * i + 2], data[4 * i + 3]) &&
        tokens[i] == ToBase36(ReadWords(data)[i])
  {
    var ns := Numerals(ReadWords(data));
    forall i | 0 <= i < |ns| ensures ':' !in ns[i] {
      assert forall k | 0 <= k < |ns[i]| :: IsLowerDigit(ns[i][k]);
    }
    SplitJoin(ns, ':');
    forall i | 0 <= i < |ns|
      ensures ReadWords(data)[i] < WordModulus
      ensures ReadWords(data)[i] == WordOf(data[4 * i], data[4 * i + 1], data[4 * i + 2], data[4 * i + 3])
    {
      ReadWordsAt(data, i);
    }
  }

  /**
   * pack reverses unpack: the data comes back exactly when its length is a
   * multiple of 4, and otherwise without the 1 to 3 bytes after the last word.
   */
  lemma PackUnpack(data: Bytes)
    ensures Pack(Unpack(data)) == data[..|data| / 4 * 4]
    ensures |data| % 4 == 0 ==> Pack(Unpack(data)) == data
  {
    var ws := ReadWords(data);
    UnpackTokens(data);
    var vs := TokenValues(Split(Unpack(data), ':'));
    forall i | 0 <= i < |ws| ensures vs[i] == ws[i] {
      ToIOfToBase36(ws[i]);
    }
    assert vs == ws;
    WriteReadWords(data);
  }
}
