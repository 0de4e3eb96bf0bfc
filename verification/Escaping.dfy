/** The escaping of SQL strings. A `char` stands for one byte. */
module Escaping {
  import opened Common

  /** The letter that stands for a byte that must be escaped. */
  function EscapeLetter(c: char): Option<char> {
    if c == '\0' then Some('0')
    else if c == '\n' then Some('n')
    else if c == '\r' then Some('r')
    else if c == '\\' then Some('\\')
    else if c == '\'' then Some('\'')
    else if c == '"' then Some('"')
    else if c == '\U{001A}' then Some('Z')
    else None
  }

  function EscapedChar(c: char): string {
    var e := EscapeLetter(c);
    if e.Some? then ['\\', e.value] else [c]
  }

  function Escaped(s: string): string {
    if s == [] then [] else EscapedChar(s[0]) + Escaped(s[1..])
  }

  lemma {:induction false} EscapedSnoc(s: string, c: char)
    ensures Escaped(s + [c]) == Escaped(s) + EscapedChar(c)
  {
    if s == [] {
      assert [] + [c] == [c] && [c][1..] == [];
      assert Escaped([c]) == EscapedChar(c) + [];
    } else {
      assert (s + [c])[1..] == s[1..] + [c];
      EscapedSnoc(s[1..], c);
    }
  }

  /** Fills a buffer that is allocated once, with twice the length of the input, and never outgrown. */
  method Escape(sql: string) returns (r: string)
    ensures r == Escaped(sql) && |sql| <= |r| <= 2 * |sql|
  {
    var dest := new char[2 * |sql|];
    var len := 0;
    for i := 0 to |sql|
      invariant i <= len <= 2 * i && dest[..len] == Escaped(sql[..i])
    {
      assert sql[..i + 1] == sql[..i] + [sql[i]];
      EscapedSnoc(sql[..i], sql[i]);
      var escape := EscapeLetter(sql[i]);
      ghost var written := dest[..len];
      if escape.Some? {
        dest[len], dest[len + 1] := '\\', escape.value;
        len := len + 2;
        assert dest[..len] == written + EscapedChar(sql[i]);
      } else {
        dest[len] := sql[i];
        len := len + 1;
        assert dest[..len] == written + EscapedChar(sql[i]);
      }
    }
    assert sql[..|sql|] == sql;
    r := dest[..len];
  }

  /** The byte that a letter after a backslash stands for. */
  function UnescapeLetter(e: char): Option<char> {
    if e == '0' then Some('\0')
    else if e == 'n' then Some('\n')
    else if e == 'r' then Some('\r')
    else if e == '\\' then Some('\\')
    else if e == '\'' then Some('\'')
    else if e == '"' then Some('"')
    else if e == 'Z' then Some('\U{001A}')
    else None
  }

  /** A strict reader of escaped strings: it takes no unknown letter, no unescaped special byte and no
      backslash at the end. */
  function Unescaped(t: string): Option<string> {
    if t == [] then Some([])
    else if t[0] == '\\' then
      if |t| < 2 || UnescapeLetter(t[1]).None? then None
      else
        var rest := Unescaped(t[2..]);
        if rest.None? then None else Some([UnescapeLetter(t[1]).value] + rest.value)
    else if EscapeLetter(t[0]).Some? then None
    else
      var rest := Unescaped(t[1..]);
      if rest.None? then None else Some([t[0]] + rest.value)
  }

  lemma {:induction false} ReadsBack(s: string)
    ensures Unescaped(Escaped(s)) == Some(s)
  {
    if s != [] {
      ReadsBack(s[1..]);
      var t, n := Escaped(s), |EscapedChar(s[0])|;
      assert t[n..] == Escaped(s[1..]);
      assert s == [s[0]] + s[1..];
    }
  }

  lemma {:induction false} OnlyReads(t: string, s: string)
    requires Unescaped(t) == Some(s)
    ensures t == Escaped(s)
    decreases |t|
  {
    if t != [] {
      var n := if t[0] == '\\' then 2 else 1;
      assert s[1..] == Unescaped(t[n..]).value;
      OnlyReads(t[n..], s[1..]);
      assert t == t[..n] + t[n..];
      assert t[..n] == EscapedChar(s[0]);
    }
  }

  /** The reader inverts escaping and accepts nothing else, so no two strings are escaped alike. */
  lemma EscapedExactly(s: string, t: string)
    ensures Unescaped(t) == Some(s) <==> t == Escaped(s)
    ensures Escaped(s) == Escaped(t) ==> s == t
  {
    ReadsBack(s);
    ReadsBack(t);
    if Unescaped(t) == Some(s) { OnlyReads(t, s); }
  }

  /** Escaping neither adds nor removes a byte that needs none and stands for none. */
  lemma {:induction false} EscapedContains(s: string, c: char)
    requires EscapeLetter(c).None? && UnescapeLetter(c).None?
    ensures c in Escaped(s) <==> c in s
  {
    if s != [] {
      EscapedContains(s[1..], c);
      assert s == [s[0]] + s[1..];
      assert c in EscapedChar(s[0]) <==> c == s[0];
    }
  }

  /** The escapes: NUL, newline, carriage return, backslash, both quotes and control-Z; no other byte has one. */
  lemma EscapesExactly(c: char)
    ensures EscapedChar('\0') == "\\0" && EscapedChar('\n') == "\\n" && EscapedChar('\r') == "\\r"
    ensures EscapedChar('\\') == "\\\\" && EscapedChar('\'') == "\\'" && EscapedChar('"') == "\\\""
    ensures EscapedChar('\U{001A}') == "\\Z"
    ensures c !in "\0\n\r\\'\"\U{001A}" ==> EscapedChar(c) == [c]
  {
    var special := "\0\n\r\\'\"\U{001A}";
    assert special[0] == '\0' && special[1] == '\n' && special[2] == '\r' && special[3] == '\\';
    assert special[4] == '\'' && special[5] == '"' && special[6] == '\U{001A}';
  }
}
