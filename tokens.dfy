/** The tokeniser of parse_slideshow: a slideshow text is a list of picture
    names separated by white space or semicolons. Leading white space is
    skipped before each name; the separator after a name is consumed with
    it, so two separators in a row (or white space at the very end after a
    separator) make an empty name. */
module Tokens {

  /** isspace in the C locale. */
  predicate IsSpace(c: char) {
    c == ' ' || c == '\t' || c == '\n' || c == '\r' || c == '\U{0B}' || c == '\U{0C}'
  }

  /** A character that ends a name. */
  predicate IsDelimiter(c: char) {
    IsSpace(c) || c == ';'
  }

  /** The text after its leading white space. */
  function SkipSpaces(u: string): (v: string)
    ensures |v| <= |u|
    ensures v == [] || !IsSpace(v[0])
  {
    if u != [] && IsSpace(u[0]) then SkipSpaces(u[1..]) else u
  }

  /** The length of the name at the start of u: up to the first delimiter. */
  function NameLength(u: string): (k: nat)
    ensures k <= |u| && (k == |u| || IsDelimiter(u[k]))
  {
    if u != [] && !IsDelimiter(u[0]) then 1 + NameLength(u[1..]) else 0
  }

  /** The names the scan produces from the text u: while text is left,
      skip white space, take a name up to the next delimiter, and step over
      that delimiter. */
  function Tokens(u: string): seq<string>
    decreases |u|
  {
    if u == [] then []
    else
      var v := SkipSpaces(u);
      var k := NameLength(v);
      [v[..k]] + (if k == |v| then [] else Tokens(v[k + 1..]))
  }

  /** One step of the scan. */
  lemma TokensStep(u: string)
    requires u != []
    ensures var v := SkipSpaces(u); var k := NameLength(v);
      Tokens(u) == [v[..k]] + (if k == |v| then [] else Tokens(v[k + 1..]))
  {
  }

  /** A name holds no delimiter. */
  lemma {:induction false} NameHasNoDelimiter(u: string, j: nat)
    requires j < NameLength(u)
    ensures !IsDelimiter(u[j])
  {
    if j > 0 {
      NameHasNoDelimiter(u[1..], j - 1);
    }
  }

  /** No name contains a delimiter. */
  lemma {:induction false} TokensHaveNoDelimiter(u: string)
    ensures var ts := Tokens(u);
      forall k, j :: 0 <= k < |ts| && 0 <= j < |ts[k]| ==> !IsDelimiter(ts[k][j])
    decreases |u|
  {
    if u != [] {
      var v := SkipSpaces(u);
      var n := NameLength(v);
      if n < |v| {
        TokensHaveNoDelimiter(v[n + 1..]);
      }
      var ts := Tokens(u);
      forall k, j | 0 <= k < |ts| && 0 <= j < |ts[k]| ensures !IsDelimiter(ts[k][j]) {
        if k == 0 {
          assert ts[0] == v[..n] && ts[0][j] == v[j];
          NameHasNoDelimiter(v, j);
        } else {
          assert ts[k] == Tokens(v[n + 1..])[k - 1];
        }
      }
    }
  }

  /** Leading white space is skipped. */
  lemma {:induction false} SkipSpacesOver(sp: string, rest: string)
    requires forall k :: 0 <= k < |sp| ==> IsSpace(sp[k])
    requires rest == [] || !IsSpace(rest[0])
    ensures SkipSpaces(sp + rest) == rest
    decreases |sp|
  {
    if sp != [] {
      assert (sp + rest)[1..] == sp[1..] + rest;
      SkipSpacesOver(sp[1..], rest);
    }
  }

  /** A name followed by a delimiter has its own length. */
  lemma {:induction false} NameLengthOf(name: string, rest: string)
    requires forall k :: 0 <= k < |name| ==> !IsDelimiter(name[k])
    requires rest == [] || IsDelimiter(rest[0])
    ensures NameLength(name + rest) == |name|
    decreases |name|
  {
    if name != [] {
      assert (name + rest)[1..] == name[1..] + rest;
      NameLengthOf(name[1..], rest);
    }
  }

  /** White space, a name and one delimiter, followed by any text r, give
      that name and then the names of r. A delimiter that is white space
      only ends a non-empty name (before an empty one it is skipped). */
  lemma TokensOfName(sp: string, name: string, sep: char, r: string)
    requires forall k :: 0 <= k < |sp| ==> IsSpace(sp[k])
    requires forall k :: 0 <= k < |name| ==> !IsDelimiter(name[k])
    requires IsDelimiter(sep) && (|name| > 0 || !IsSpace(sep))
    ensures Tokens(sp + name + [sep] + r) == [name] + Tokens(r)
  {
    var v := name + [sep] + r;
    assert sp + name + [sep] + r == sp + v;
    assert v == [] || !IsSpace(v[0]) by {
      if |name| > 0 { assert v[0] == name[0]; } else { assert v[0] == sep; }
    }
    SkipSpacesOver(sp, v);
    assert v == name + ([sep] + r);
    NameLengthOf(name, [sep] + r);
    assert v[..|name|] == name && v[|name| + 1..] == r;
  }

  /** A name that ends the text is its last token. */
  lemma TokensOfLastName(sp: string, name: string)
    requires forall k :: 0 <= k < |sp| ==> IsSpace(sp[k])
    requires |name| > 0 && forall k :: 0 <= k < |name| ==> !IsDelimiter(name[k])
    ensures Tokens(sp + name) == [name]
  {
    assert !IsSpace(name[0]);
    SkipSpacesOver(sp, name);
    NameLengthOf(name, []);
    assert name + [] == name && name[..|name|] == name;
  }

  lemma BlanksAfter(name: string)
    ensures name + "  " == "" + name + [' '] + " "
  {
  }

  /** Two blanks after a last name leave an empty name at the end. */
  lemma TokensTrailingBlanks(name: string)
    requires |name| > 0 && forall k :: 0 <= k < |name| ==> !IsDelimiter(name[k])
    ensures Tokens(name + "  ") == [name, ""]
  {
    calc {
      Tokens(name + "  ");
    == { BlanksAfter(name); }
      Tokens("" + name + [' '] + " ");
    == { TokensOfName("", name, ' ', " "); }
      [name] + Tokens(" ");
    == { TokensOfBlank(); }
      [name] + [""];
    }
  }

  /** A lone blank is one empty name. */
  lemma TokensOfBlank()
    ensures Tokens(" ") == [""]
  {
    assert SkipSpaces(" ") == "";
  }

  /** One step of the scan at index s of t, with n the index after the
      white space and e the end of the name. */
  lemma ScanStep(t: string, s: nat, n: nat, e: nat)
    requires s < |t| && s <= n <= e <= |t|
    requires t[n..] == SkipSpaces(t[s..]) && e - n == NameLength(t[n..])
    ensures Tokens(t[s..]) == [t[n..e]] + (if e == |t| then [] else Tokens(t[e + 1..]))
  {
    var v := t[n..];
    calc {
      Tokens(t[s..]);
    == { TokensStep(t[s..]); }
      [v[..e - n]] + (if e - n == |v| then [] else Tokens(v[e - n + 1..]));
    == { assert v[..e - n] == t[n..e];
         if e < |t| { assert v[e - n + 1..] == t[e + 1..]; } }
      [t[n..e]] + (if e == |t| then [] else Tokens(t[e + 1..]));
    }
  }

  /** The white-space loop: from s to the first other character. */
  method SkipSpaceLoop(t: string, s: nat) returns (n: nat)
    requires s <= |t|
    ensures s <= n <= |t| && t[n..] == SkipSpaces(t[s..])
  {
    n := s;
    while n < |t| && IsSpace(t[n])
      invariant s <= n <= |t| && SkipSpaces(t[n..]) == SkipSpaces(t[s..])
    {
      assert t[n..][1..] == t[n + 1..];
      n := n + 1;
    }
    assert SkipSpaces(t[n..]) == t[n..];
  }

  /** The name loop: from n to the first delimiter. */
  method NameLoop(t: string, n: nat) returns (e: nat)
    requires n <= |t|
    ensures n <= e <= |t| && e - n == NameLength(t[n..])
  {
    e := n;
    while e < |t| && !IsDelimiter(t[e])
      invariant n <= e <= |t| && NameLength(t[n..]) == e - n + NameLength(t[e..])
    {
      assert t[e..][1..] == t[e + 1..];
      e := e + 1;
    }
  }

  /** The tokenising walk of parse_slideshow over the text. */
  method Tokenize(t: string) returns (tokens: seq<string>)
    ensures tokens == Tokens(t)
  {
    tokens := [];
    var s := 0;
    while s < |t|
      invariant 0 <= s <= |t|
      invariant tokens + Tokens(t[s..]) == Tokens(t)
      decreases |t| - s
    {
      var n := SkipSpaceLoop(t, s);
      var e := NameLoop(t, n);
      ScanStep(t, s, n, e);
      ghost var rest := if e == |t| then [] else Tokens(t[e + 1..]);
      assert tokens + [t[n..e]] + rest == tokens + ([t[n..e]] + rest);
      tokens := tokens + [t[n..e]];
      s := if e < |t| then e + 1 else e;
      assert Tokens(t[s..]) == rest by {
        if e == |t| {
          assert t[s..] == [];
        }
      }
    }
  }
}
