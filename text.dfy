/** String helpers the handlers rely on: JavaScript truthiness of a string,
    `String.prototype.trim`, and the case folding a regular expression with
    the `i` flag applies. */
module Text {
  import opened Results

  /** JavaScript truthiness of an optional string: present and not "". */
  predicate Truthy(s: Option<string>) {
    s.Some? && s.value != ""
  }

  /** The code points `trim` removes: WhiteSpace and LineTerminator of
      ECMAScript (TAB, VT, FF, SP, NBSP, ZWNBSP, the Zs category, LF, CR,
      LS, PS). */
  predicate IsWhitespace(c: char) {
    c in WhitespaceChars
  }

  const WhitespaceChars: set<char> :=
    {'\t', '\n', '\U{000B}', '\U{000C}', '\r', ' ', '\U{00A0}', '\U{1680}',
     '\U{2000}', '\U{2001}', '\U{2002}', '\U{2003}', '\U{2004}', '\U{2005}',
     '\U{2006}', '\U{2007}', '\U{2008}', '\U{2009}', '\U{200A}',
     '\U{2028}', '\U{2029}', '\U{202F}', '\U{205F}', '\U{3000}', '\U{FEFF}'}

  predicate AllWhitespace(s: string) {
    forall i :: 0 <= i < |s| ==> IsWhitespace(s[i])
  }

  /** Neither starts nor ends with whitespace. */
  predicate Unpadded(s: string) {
    s == [] || (!IsWhitespace(s[0]) && !IsWhitespace(s[|s| - 1]))
  }

  /** Drops leading whitespace: the result is a suffix of `s` that does not
      start with whitespace (TrimStartDropsOnlyWhitespace: what it drops is
      whitespace). */
  function TrimStart(s: string): (r: string)
    ensures |r| <= |s| && r == s[|s| - |r|..]
    ensures r != [] ==> !IsWhitespace(r[0])
    decreases |s|
  {
    if s != [] && IsWhitespace(s[0]) then TrimStart(s[1..]) else s
  }

  /** Drops trailing whitespace: the result is a prefix of `s` that does not
      end with whitespace (TrimEndDropsOnlyWhitespace: what it drops is
      whitespace). */
  function TrimEnd(s: string): (r: string)
    ensures |r| <= |s| && r == s[..|r|]
    ensures r != [] ==> !IsWhitespace(r[|r| - 1])
    decreases |s|
  {
    if s != [] && IsWhitespace(s[|s| - 1]) then TrimEnd(s[..|s| - 1]) else s
  }

  lemma {:induction false} TrimStartDropsOnlyWhitespace(s: string)
    ensures AllWhitespace(s[..|s| - |TrimStart(s)|])
    decreases |s|
  {
    if s != [] && IsWhitespace(s[0]) {
      TrimStartDropsOnlyWhitespace(s[1..]);
      var n := |s| - |TrimStart(s)|;
      forall i | 0 <= i < n
        ensures IsWhitespace(s[i])
      {
        if i > 0 {
          assert s[i] == s[1..][..n - 1][i - 1];
        }
      }
    }
  }

  lemma {:induction false} TrimEndDropsOnlyWhitespace(s: string)
    ensures AllWhitespace(s[|TrimEnd(s)|..])
    decreases |s|
  {
    if s != [] && IsWhitespace(s[|s| - 1]) {
      var s' := s[..|s| - 1];
      TrimEndDropsOnlyWhitespace(s');
      var n := |TrimEnd(s)|;
      forall i | n <= i < |s|
        ensures IsWhitespace(s[i])
      {
        if i < |s| - 1 {
          assert s[i] == s'[n..][i - n];
        }
      }
    }
  }

  /** `s.trim()`: the result is unpadded, it sits inside `s` between two runs
      of whitespace, and an already unpadded string is returned unchanged. */
  function Trim(s: string): (r: string)
    ensures Unpadded(r)
    ensures Unpadded(s) ==> r == s
  {
    var t := TrimStart(s);
    var r := TrimEnd(t);
    assert r != [] ==> r[0] == t[0];
    assert Unpadded(s) ==> t == s;
    r
  }

  /** What `trim` removes is whitespace on either side of its result. */
  lemma TrimRemovesOnlyPadding(s: string)
    ensures exists k :: 0 <= k <= |s| - |Trim(s)| && s[k..k + |Trim(s)|] == Trim(s)
                        && AllWhitespace(s[..k]) && AllWhitespace(s[k + |Trim(s)|..])
  {
    var t := TrimStart(s);
    var r := TrimEnd(t);
    var k := |s| - |t|;
    TrimStartDropsOnlyWhitespace(s);
    TrimEndDropsOnlyWhitespace(t);
    assert s[k..k + |r|] == r;
    assert s[k + |r|..] == t[|r|..];
  }

  /** ASCII case folding, as the `i` flag of a regular expression applies it
      to ASCII letters. */
  function LowerChar(c: char): char {
    if 'A' <= c <= 'Z' then (c as int + 32) as char else c
  }

  function Lower(s: string): (r: string)
    ensures |r| == |s|
    decreases |s|
  {
    if s == [] then [] else [LowerChar(s[0])] + Lower(s[1..])
  }

  /** Case folding works character by character. */
  lemma {:induction false} LowerAt(s: string, i: nat)
    requires i < |s|
    ensures Lower(s)[i] == LowerChar(s[i])
    decreases |s|
  {
    if i > 0 {
      LowerAt(s[1..], i - 1);
    }
  }

  /** When the database matches a stored value `a` against the anchored,
      case-insensitive pattern built from a parameter `b` that holds no
      pattern metacharacters, it decides this when `a` does not end in a line
      feed: the whole of `a` equals `b` up to letter case. (PCRE's `$` also
      matches just before a final line feed, so "Meta\n" would match "Meta";
      that case is not modelled.) */
  predicate EqualsIgnoreCase(a: string, b: string) {
    Lower(a) == Lower(b)
  }

  /** Case folding neither creates nor removes whitespace. */
  lemma LowerCharKeepsWhitespace(c: char)
    ensures IsWhitespace(LowerChar(c)) <==> IsWhitespace(c)
  {
  }

  /** An anchored match is a whole-string match: strings of different lengths
      never match, so a proper substring of a stored value does not. */
  lemma EqualsIgnoreCaseSameLength(a: string, b: string)
    requires EqualsIgnoreCase(a, b)
    ensures |a| == |b|
  {
  }

  /** A value that matches an unpadded string up to case is itself unpadded. */
  lemma EqualsIgnoreCaseKeepsUnpadded(a: string, b: string)
    requires EqualsIgnoreCase(a, b) && Unpadded(b)
    ensures Unpadded(a)
  {
    EqualsIgnoreCaseSameLength(a, b);
    if a != [] {
      LowerAt(a, 0);
      LowerAt(b, 0);
      LowerAt(a, |a| - 1);
      LowerAt(b, |b| - 1);
      LowerCharKeepsWhitespace(a[0]);
      LowerCharKeepsWhitespace(b[0]);
      LowerCharKeepsWhitespace(a[|a| - 1]);
      LowerCharKeepsWhitespace(b[|b| - 1]);
    }
  }

  /** `trim` removes exactly the padding: whitespace around an unpadded
      string is dropped and the string itself is kept. */
  lemma TrimRemovesPadding(a: string, m: string, b: string)
    requires AllWhitespace(a) && AllWhitespace(b) && Unpadded(m) && m != []
    ensures Trim(a + m + b) == m
  {
    var t := m + b;
    assert a + m + b == a + t;
    TrimStartDropsWhitespace(a, t);
    assert TrimStart(a + m + b) == t;
    TrimEndDropsWhitespace(m, b);
    assert TrimEnd(t) == m;
  }

  lemma {:induction false} TrimStartDropsWhitespace(a: string, t: string)
    requires AllWhitespace(a) && t != [] && !IsWhitespace(t[0])
    ensures TrimStart(a + t) == t
    decreases |a|
  {
    if a == [] {
      assert a + t == t;
    } else {
      assert (a + t)[1..] == a[1..] + t;
      TrimStartDropsWhitespace(a[1..], t);
    }
  }

  lemma {:induction false} TrimEndDropsWhitespace(t: string, b: string)
    requires AllWhitespace(b) && t != [] && !IsWhitespace(t[|t| - 1])
    ensures TrimEnd(t + b) == t
    decreases |b|
  {
    if b == [] {
      assert t + b == t;
    } else {
      var b' := b[..|b| - 1];
      assert (t + b)[..|t + b| - 1] == t + b';
      TrimEndDropsWhitespace(t, b');
    }
  }
}
