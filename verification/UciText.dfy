/** file.c and util.c of libuci: characters, valid names, and quoting. */
module UciText {

  const NUL := '\0'

  type Text = seq<char>

  /** isspace and isalnum of the C locale. */
  predicate IsSpace(c: char) { c == ' ' || '\t' <= c <= '\r' }

  predicate IsAlnum(c: char) { '0' <= c <= '9' || 'A' <= c <= 'Z' || 'a' <= c <= 'z' }

  /** What a C string may hold. */
  predicate NulFree(s: Text) { forall i :: 0 <= i < |s| ==> s[i] != NUL }

  /** `uci_validate_str` on one character. */
  predicate ValidChar(c: char, name: bool, package: bool) {
    IsAlnum(c) || c == '_' || (c == '-' && package) || !(name || c < '!' || c > '~')
  }

  predicate ValidStr(s: Text, name: bool, package: bool) {
    s != [] && forall i :: 0 <= i < |s| ==> ValidChar(s[i], name, package)
  }

  predicate ValidName(s: Text) { ValidStr(s, true, false) }
  predicate ValidType(s: Text) { ValidStr(s, false, false) }
  predicate ValidPackage(s: Text) { ValidStr(s, false, true) }

  /** `uci_validate_text`: the control characters a value may hold. */
  predicate ValidText(s: Text) {
    forall i :: 0 <= i < |s| ==> s[i] >= ' ' || s[i] == '\t' || s[i] == '\n' || s[i] == '\r'
  }

  /** A word that needs no quotes. */
  predicate PlainChar(c: char) { '!' <= c <= '~' && c != '\'' && c != '"' && c != '#' && c != ';' && c != '\\' }

  predicate Plain(s: Text) { s != [] && forall i :: 0 <= i < |s| ==> PlainChar(s[i]) }

  /** The characters of names, and those of types and package names. */
  lemma ValidMeans(s: Text)
    ensures ValidName(s) <==>
            s != [] && forall i :: 0 <= i < |s| ==>
                         '0' <= s[i] <= '9' || 'A' <= s[i] <= 'Z' || 'a' <= s[i] <= 'z' || s[i] == '_'
    ensures ValidStr(s, true, true) <==>
            s != [] && forall i :: 0 <= i < |s| ==>
                         || '0' <= s[i] <= '9' || 'A' <= s[i] <= 'Z' || 'a' <= s[i] <= 'z'
                         || s[i] == '_' || s[i] == '-'
    ensures ValidType(s) <==> s != [] && forall i :: 0 <= i < |s| ==> '!' <= s[i] <= '~'
    ensures ValidPackage(s) <==> ValidType(s)
  {
  }

  /** `uci_validate_str`. */
  method ValidateStr(s: Text, name: bool, package: bool) returns (ok: bool)
    ensures ok == ValidStr(s, name, package)
  {
    if s == [] { return false; }
    var i := 0;
    while i < |s|
      invariant i <= |s| && forall k :: 0 <= k < i ==> ValidChar(s[k], name, package)
    {
      if !ValidChar(s[i], name, package) { return false; }
      i := i + 1;
    }
    ok := true;
  }

  // ----- quoting

  /** The place of the first quote, or the end. */
  function Cut(s: Text): (k: nat)
    ensures k <= |s| && (k < |s| ==> s[k] == '\'') && forall i :: 0 <= i < k ==> s[i] != '\''
  {
    if s == [] || s[0] == '\'' then 0 else 1 + Cut(s[1..])
  }

  const QUOTE_ESCAPE: Text := "'\\''"

  /** A string with every quote replaced by: end of quotes, escaped quote, quotes again. */
  function Escaped(s: Text): Text {
    if s == [] then [] else (if s[0] == '\'' then QUOTE_ESCAPE else [s[0]]) + Escaped(s[1..])
  }

  function Quoted(s: Text): Text { "'" + Escaped(s) + "'" }

  /** The string up to its first quote stays as it is. */
  lemma {:induction false} EscapedAt(s: Text, k: nat)
    requires k <= |s| && (k < |s| ==> s[k] == '\'') && forall i :: 0 <= i < k ==> s[i] != '\''
    ensures Escaped(s) == s[..k] + if k == |s| then [] else QUOTE_ESCAPE + Escaped(s[k + 1..])
  {
    if k > 0 {
      var t := s[1..];
      EscapedAt(t, k - 1);
      assert s[..k] == [s[0]] + t[..k - 1];
      assert k < |s| ==> t[k..] == s[k + 1..];
    }
  }

  lemma PlainEscaped(s: Text)
    requires Plain(s)
    ensures Escaped(s) == s
  {
    hide Escaped;
    EscapedAt(s, |s|);
  }

  lemma QuotedNulFree(v: Text)
    requires NulFree(v)
    ensures NulFree(Quoted(v))
  {
    EscapedNulFree(v);
  }

  lemma {:induction false} EscapedNulFree(v: Text)
    requires NulFree(v)
    ensures NulFree(Escaped(v))
    decreases |v|
  {
    if v != [] { EscapedNulFree(v[1..]); }
  }

  /** `uci_escape`, into the buffer of the context, which doubles until the next piece and
      an escape fit. The terminating NUL is inside it too. */
  method Escape(str: Text, buf0: array<char>) returns (buf: array<char>, ofs: nat)
    requires buf0.Length >= 32
    modifies buf0
    ensures buf == buf0 || fresh(buf)
    ensures ofs < buf.Length && buf[..ofs] == Escaped(str) && buf[ofs] == NUL
  {
    hide Escaped, Cut;
    var s := str;
    buf, ofs := buf0, 0;
    while true
      invariant (buf == buf0 || fresh(buf)) && ofs < buf.Length && buf.Length >= 32
      invariant Escaped(str) == buf[..ofs] + Escaped(s)
      decreases |s|
    {
      var len := FindQuote(s);
      EscapedOn(str, buf[..ofs], s, len);
      buf := Room(buf, ofs, len);
      Append(buf, ofs, s[..len]);
      ofs := ofs + len;
      if len == |s| { break; }
      ofs := AppendEscape(buf, ofs);
      s := s[len + 1..];
    }
    buf[ofs] := NUL;
  }

  lemma EscapedOn(str: Text, before: Text, s: Text, k: nat)
    requires Escaped(str) == before + Escaped(s)
    requires k <= |s| && (k < |s| ==> s[k] == '\'') && forall i :: 0 <= i < k ==> s[i] != '\''
    ensures k < |s| ==> Escaped(str) == before + s[..k] + QUOTE_ESCAPE + Escaped(s[k + 1..])
    ensures k == |s| ==> Escaped(str) == before + s[..k]
  {
    hide Escaped;
    EscapedAt(s, k);
  }

  /** The reallocations before a piece is copied. */
  method Room(buf0: array<char>, ofs: nat, len: nat) returns (buf: array<char>)
    requires ofs < buf0.Length && buf0.Length >= 32
    ensures (buf == buf0 || fresh(buf)) && buf.Length >= 32 && ofs < buf.Length && buf[..ofs] == buf0[..ofs]
    ensures ofs + len + |QUOTE_ESCAPE| + 2 <= buf.Length
  {
    buf := buf0;
    while ofs + len + |QUOTE_ESCAPE| + 2 > buf.Length
      invariant (buf == buf0 || fresh(buf)) && buf.Length >= 32 && ofs < buf.Length && buf[..ofs] == buf0[..ofs]
      decreases ofs + len + |QUOTE_ESCAPE| + 2 - buf.Length
    {
      var more := new char[buf.Length * 2];
      forall i | 0 <= i < buf.Length { more[i] := buf[i]; }
      assert more[..ofs] == buf[..ofs];
      buf := more;
    }
  }

  /** strchr, or else the end. */
  method FindQuote(s: Text) returns (len: nat)
    ensures len <= |s| && (len < |s| ==> s[len] == '\'') && forall i :: 0 <= i < len ==> s[i] != '\''
  {
    len := 0;
    while len < |s| && s[len] != '\''
      invariant len <= |s| && forall i :: 0 <= i < len ==> s[i] != '\''
    {
      len := len + 1;
    }
  }

  /** The escape is copied with its NUL. */
  method AppendEscape(buf: array<char>, ofs: nat) returns (n: nat)
    requires ofs + |QUOTE_ESCAPE| < buf.Length
    modifies buf
    ensures n == ofs + |QUOTE_ESCAPE| && buf[..n] == old(buf[..ofs]) + QUOTE_ESCAPE
  {
    Append(buf, ofs, QUOTE_ESCAPE);
    n := ofs + |QUOTE_ESCAPE|;
    buf[n] := NUL;
  }

  /** memcpy. */
  method Append(buf: array<char>, ofs: nat, s: Text)
    requires ofs + |s| <= buf.Length
    modifies buf
    ensures buf[..ofs + |s|] == old(buf[..ofs]) + s
  {
    forall i | 0 <= i < |s| { buf[ofs + i] := s[i]; }
  }
}
