/**
 * The Ruby string operations the envelope relies on: Array#join,
 * String#split with a one-character separator, and String#strip.
 */
module RubyStrings {

  /** Array#join(sep): the parts with one separator between neighbours; [] joins to "". */
  function Join(parts: seq<string>, sep: char): string {
    if parts == [] then ""
    else if |parts| == 1 then parts[0]
    else parts[0] + [sep] + Join(parts[1..], sep)
  }

  /** Every field between separators, empty ones included; there is always at least one. */
  function Fields(s: string, sep: char): (fs: seq<string>)
    ensures |fs| >= 1
  {
    if s == [] then [""]
    else
      var rest := Fields(s[1..], sep);
      if s[0] == sep then [""] + rest else [[s[0]] + rest[0]] + rest[1..]
  }

  /** Removes the empty fields at the end of a list of fields. */
  function DropTrailingEmpty(fs: seq<string>): (r: seq<string>)
    ensures r <= fs
    ensures r == [] || r[|r| - 1] != ""
    ensures forall i | |r| <= i < |fs| :: fs[i] == ""
  {
    if fs == [] then []
    else if fs[|fs| - 1] == "" then DropTrailingEmpty(fs[..|fs| - 1])
    else fs
  }

  /**
   * String#split(sep) with the default limit: the fields between separators,
   * without the empty fields at the end ("" and ":" both split to []).
   */
  function Split(s: string, sep: char): seq<string> {
    DropTrailingEmpty(Fields(s, sep))
  }

  /** Splitting a separator-free string gives one field. */
  lemma {:induction false} FieldsOfPlain(t: string, sep: char)
    requires sep !in t
    ensures Fields(t, sep) == [t]
  {
    if t != [] {
      assert t[0] != sep && sep !in t[1..];
      FieldsOfPlain(t[1..], sep);
      assert [t[0]] + t[1..] == t;
    }
  }

  /** A separator-free prefix followed by a separator splits off as one field. */
  lemma {:induction false} FieldsOfSeparated(t: string, sep: char, rest: string)
    requires sep !in t
    ensures Fields(t + [sep] + rest, sep) == [t] + Fields(rest, sep)
  {
    if t == [] {
      assert t + [sep] + rest == [sep] + rest;
      assert ([sep] + rest)[1..] == rest;
    } else {
      FieldsOfSeparated(t[1..], sep, rest);
      assert (t + [sep] + rest)[1..] == t[1..] + [sep] + rest;
      assert [t[0]] + t[1..] == t;
    }
  }

  /** Joining non-empty lists of separator-free parts and splitting all fields gives the parts back. */
  lemma {:induction false} FieldsOfJoin(parts: seq<string>, sep: char)
    requires parts != []
    requires forall i | 0 <= i < |parts| :: sep !in parts[i]
    ensures Fields(Join(parts, sep), sep) == parts
  {
    if |parts| == 1 {
      FieldsOfPlain(parts[0], sep);
    } else {
      FieldsOfJoin(parts[1..], sep);
      FieldsOfSeparated(parts[0], sep, Join(parts[1..], sep));
      assert [parts[0]] + parts[1..] == parts;
    }
  }

  /** split inverts join when no part holds the separator and the last part is not empty. */
  lemma SplitJoin(parts: seq<string>, sep: char)
    requires forall i | 0 <= i < |parts| :: sep !in parts[i]
    requires parts == [] || parts[|parts| - 1] != ""
    ensures Split(Join(parts, sep), sep) == parts
  {
    if parts != [] {
      FieldsOfJoin(parts, sep);
    }
  }

  /** Every character of a joined string is the separator or a character of some part. */
  lemma {:induction false} JoinMember(parts: seq<string>, sep: char, k: nat)
    requires k < |Join(parts, sep)|
    ensures Join(parts, sep)[k] == sep || exists i :: 0 <= i < |parts| && Join(parts, sep)[k] in parts[i]
  {
    if |parts| > 1 {
      var j := Join(parts, sep);
      if k < |parts[0]| {
        assert j[k] == parts[0][k];
      } else if k > |parts[0]| {
        JoinMember(parts[1..], sep, k - |parts[0]| - 1);
        assert j[k] == Join(parts[1..], sep)[k - |parts[0]| - 1];
      }
    }
  }

  /** Whitespace as String#strip defines it: null, tab, line feed, vertical tab, form feed, carriage return, space. */
  predicate IsSpace(c: char) {
    c == '\0' || c == '\t' || c == '\n' || c == '\U{0B}' || c == '\U{0C}' || c == '\r' || c == ' '
  }

  /** String#lstrip: the suffix left after dropping leading whitespace. */
  function TrimStart(s: string): (r: string)
    ensures |r| <= |s| && r == s[|s| - |r|..]
    ensures forall i | 0 <= i < |s| - |r| :: IsSpace(s[i])
    ensures r == [] || !IsSpace(r[0])
  {
    if s != [] && IsSpace(s[0]) then TrimStart(s[1..]) else s
  }

  /** String#rstrip: the prefix left after dropping trailing whitespace. */
  function TrimEnd(s: string): (r: string)
    ensures |r| <= |s| && r == s[..|r|]
    ensures forall i | |r| <= i < |s| :: IsSpace(s[i])
    ensures r == [] || !IsSpace(r[|r| - 1])
  {
    if s != [] && IsSpace(s[|s| - 1]) then TrimEnd(s[..|s| - 1]) else s
  }

  /**
   * String#strip: s with its leading and trailing whitespace removed. The
   * result is the slice s[lo..lo + |r|] for the number lo of leading blanks.
   */
  function Strip(s: string): (r: string)
    ensures r == [] || (!IsSpace(r[0]) && !IsSpace(r[|r| - 1]))
    ensures var lo := |TrimEnd(s)| - |r|;
      0 <= lo && lo + |r| <= |s| && r == s[lo .. lo + |r|] &&
      (forall i | 0 <= i < lo :: IsSpace(s[i])) &&
      (forall i | lo + |r| <= i < |s| :: IsSpace(s[i]))
  {
    TrimStart(TrimEnd(s))
  }
}
