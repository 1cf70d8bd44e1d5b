/** The string primitives the site relies on: `String.prototype.trim`,
    `toLowerCase` and `includes`. */
module Text {

  /** ECMAScript's WhiteSpace and LineTerminator code points, the set `trim` removes. */
  predicate IsSpace(c: char)
  {
    c == '\t' || c == '\n' || c == '\U{000B}' || c == '\U{000C}' || c == '\r' || c == ' ' ||
    c == '\U{00A0}' || c == '\U{1680}' || ('\U{2000}' <= c <= '\U{200A}') ||
    c == '\U{2028}' || c == '\U{2029}' || c == '\U{202F}' || c == '\U{205F}' ||
    c == '\U{3000}' || c == '\U{FEFF}'
  }

  /** Every character of `s` is white space (so the empty string is blank). */
  predicate IsBlank(s: string)
  {
    forall c :: c in s ==> IsSpace(c)
  }

  /** How many white-space characters `s` starts with. */
  function Lead(s: string): (n: nat)
    ensures n <= |s|
  {
    if s != [] && IsSpace(s[0]) then 1 + Lead(s[1..]) else 0
  }

  /** How many white-space characters `s` ends with. */
  function Trail(s: string): (n: nat)
    ensures n <= |s|
  {
    if s != [] && IsSpace(s[|s| - 1]) then 1 + Trail(s[..|s| - 1]) else 0
  }

  /** `s` without its leading white space. */
  function TrimStart(s: string): string
  {
    s[Lead(s)..]
  }

  /** `s` without its trailing white space. */
  function TrimEnd(s: string): string
  {
    s[..|s| - Trail(s)]
  }

  /** What `TrimStart` removes is white space, and what it keeps starts with a non-space. */
  lemma {:induction false} TrimStartEdges(s: string)
    ensures IsBlank(s[..Lead(s)])
    ensures TrimStart(s) != [] ==> !IsSpace(TrimStart(s)[0])
  {
    if s != [] && IsSpace(s[0]) {
      TrimStartEdges(s[1..]);
      DropFirst(s, Lead(s[1..]));
    }
  }

  /** What `TrimEnd` removes is white space, and what it keeps ends with a non-space. */
  lemma {:induction false} TrimEndEdges(s: string)
    ensures IsBlank(s[|s| - Trail(s)..])
    ensures TrimEnd(s) != [] ==> !IsSpace(TrimEnd(s)[|TrimEnd(s)| - 1])
  {
    if s != [] && IsSpace(s[|s| - 1]) {
      TrimEndEdges(s[..|s| - 1]);
      DropLast(s, Trail(s[..|s| - 1]));
    }
  }

  /** `s.trim()`: the part of `s` between its leading and its trailing white space. */
  function Trim(s: string): string
  {
    TrimEnd(TrimStart(s))
  }

  /** `s.trim().length > 0`, or `if (s.trim())`: there is text left after trimming. */
  predicate IsNonBlank(s: string)
  {
    Trim(s) != ""
  }

  /** The trimmed text is empty exactly when `s` is blank. */
  lemma TrimBlank(s: string)
    ensures Trim(s) == [] <==> IsBlank(s)
  {
    var t := TrimStart(s);
    TrimStartEdges(s);
    TrimEndEdges(t);
    if t == [] {
      assert s[..Lead(s)] == s;
    } else {
      BlankAt(s, Lead(s));
    }
  }

  /** Each character of a blank string is white space. */
  lemma BlankAt(s: string, k: nat)
    requires k < |s|
    ensures IsBlank(s) ==> IsSpace(s[k])
  {
    assert s[k] in s;
  }

  /** A non-empty trimmed text starts and ends with a non-space. */
  lemma TrimEnds(s: string)
    ensures Trim(s) != [] ==> !IsSpace(Trim(s)[0]) && !IsSpace(Trim(s)[|Trim(s)| - 1])
  {
    var t := TrimStart(s);
    TrimStartEdges(s);
    TrimEndEdges(t);
    if Trim(s) != [] {
      assert Trim(s)[0] == t[0];
    }
  }

  /** What `trim` removes is white space: `s` is blank, then the trimmed text, then blank. */
  lemma TrimIsInfix(s: string)
    ensures var i, n := Lead(s), |Trim(s)|;
      i + n <= |s| && Trim(s) == s[i..i + n] && IsBlank(s[..i]) && IsBlank(s[i + n..])
  {
    TrimStartEdges(s);
    TrimEndEdges(TrimStart(s));
    SliceOfSlice(s, Lead(s), |Trim(s)|);
  }

  /** A slice of the suffix `s[i..]` is a slice of `s`, shifted by `i`. */
  lemma SliceOfSlice(s: string, i: nat, m: nat)
    requires i + m <= |s|
    ensures s[i..][..m] == s[i..i + m] && s[i..][m..] == s[i + m..]
  {
  }

  /** Slicing `s` one place further on slices `s[1..]`. */
  lemma DropFirst(s: string, k: nat)
    requires k < |s|
    ensures s[..k + 1] == [s[0]] + s[1..][..k] && s[k + 1..] == s[1..][k..]
  {
  }

  /** Slicing `s` from the end one place further back slices `s[..|s| - 1]`. */
  lemma DropLast(s: string, k: nat)
    requires k < |s|
    ensures s[|s| - 1 - k..] == s[..|s| - 1][|s| - 1 - k..] + [s[|s| - 1]]
    ensures s[..|s| - 1 - k] == s[..|s| - 1][..|s| - 1 - k]
  {
  }

  /** The capitals whose case mapping is modelled: ASCII, Latin-1 and full-width Latin. */
  predicate IsCapital(c: char)
  {
    'A' <= c <= 'Z' || ('\U{00C0}' <= c <= '\U{00DE}' && c != '\U{00D7}') || ('\U{FF21}' <= c <= '\U{FF3A}')
  }

  /** `toLowerCase` on one character: a modelled capital becomes its small letter, 32 code points on. */
  function LowerChar(c: char): (d: char)
  {
    if IsCapital(c) then (c as int + 32) as char else c
  }

  /** `s.toLowerCase()`, character by character. */
  function Lower(s: string): (r: string)
    ensures |r| == |s|
    ensures forall i :: 0 <= i < |s| ==> (IsSpace(r[i]) <==> IsSpace(s[i]))
    ensures forall i :: 0 <= i < |s| ==> !('A' <= r[i] <= 'Z')
    ensures forall i :: 0 <= i < |s| && IsCapital(s[i]) ==> r[i] == (s[i] as int + 32) as char
    ensures forall i :: 0 <= i < |s| && !IsCapital(s[i]) ==> r[i] == s[i]
  {
    seq(|s|, i requires 0 <= i < |s| => LowerChar(s[i]))
  }

  /** `hay.includes(q)`: `q` occurs in `hay` at some position. */
  predicate Contains(hay: string, q: string)
  {
    q <= hay || (hay != [] && Contains(hay[1..], q))
  }

  /** Lower-casing never turns a space into a non-space or back. */
  lemma LowerCharKeepsSpace(c: char)
    ensures IsSpace(LowerChar(c)) <==> IsSpace(c)
  {
  }

  lemma LowerAppend(a: string, b: string)
    ensures Lower(a + b) == Lower(a) + Lower(b)
  {
    assert forall i :: 0 <= i < |a + b| ==> Lower(a + b)[i] == (Lower(a) + Lower(b))[i];
  }

  lemma LowerIdempotent(s: string)
    ensures Lower(Lower(s)) == Lower(s)
  {
    assert forall i :: 0 <= i < |s| ==> Lower(Lower(s))[i] == Lower(s)[i];
  }

  /** Lower-casing keeps the number of leading white-space characters. */
  lemma {:induction false} LeadLower(s: string)
    ensures Lead(Lower(s)) == Lead(s)
  {
    if s != [] {
      LowerCharKeepsSpace(s[0]);
      assert Lower(s)[1..] == Lower(s[1..]);
      if IsSpace(s[0]) {
        LeadLower(s[1..]);
      }
    }
  }

  /** Lower-casing keeps the number of trailing white-space characters. */
  lemma {:induction false} TrailLower(s: string)
    ensures Trail(Lower(s)) == Trail(s)
  {
    if s != [] {
      LowerCharKeepsSpace(s[|s| - 1]);
      assert Lower(s)[..|s| - 1] == Lower(s[..|s| - 1]);
      if IsSpace(s[|s| - 1]) {
        TrailLower(s[..|s| - 1]);
      }
    }
  }

  lemma TrimStartLower(s: string)
    ensures TrimStart(Lower(s)) == Lower(TrimStart(s))
  {
    LeadLower(s);
    assert Lower(s)[Lead(s)..] == Lower(s[Lead(s)..]);
  }

  lemma TrimEndLower(s: string)
    ensures TrimEnd(Lower(s)) == Lower(TrimEnd(s))
  {
    TrailLower(s);
    assert Lower(s)[..|s| - Trail(s)] == Lower(s[..|s| - Trail(s)]);
  }

  /** Trimming and lower-casing commute, so the order the site applies them in does not matter. */
  lemma TrimLower(s: string)
    ensures Trim(Lower(s)) == Lower(Trim(s))
  {
    TrimStartLower(s);
    TrimEndLower(TrimStart(s));
  }

  /** A string is blank exactly when a concatenation of it with another blank string is. */
  lemma BlankAppend(a: string, b: string)
    ensures IsBlank(a + b) <==> IsBlank(a) && IsBlank(b)
  {
    if IsBlank(a + b) {
      assert forall i :: 0 <= i < |a| ==> a[i] == (a + b)[i];
      assert forall i :: 0 <= i < |b| ==> b[i] == (a + b)[|a| + i];
    }
  }

  lemma {:induction false} ContainsEmpty(hay: string)
    ensures Contains(hay, "")
  {
  }

  /** An occurrence inside the left part of a concatenation is an occurrence in the whole. */
  lemma {:induction false} ContainsInLeft(a: string, b: string, q: string)
    requires Contains(a, q)
    ensures Contains(a + b, q)
  {
    if q <= a {
      assert (a + b)[..|q|] == a[..|q|];
    } else {
      assert (a + b)[1..] == a[1..] + b;
      ContainsInLeft(a[1..], b, q);
    }
  }

  /** An occurrence inside the right part of a concatenation is an occurrence in the whole. */
  lemma {:induction false} ContainsInRight(a: string, b: string, q: string)
    requires Contains(b, q)
    ensures Contains(a + b, q)
  {
    if a != [] {
      assert (a + b)[1..] == a[1..] + b;
      ContainsInRight(a[1..], b, q);
    } else {
      assert a + b == b;
    }
  }

  /** The recursive `Contains` agrees with the positional reading of `includes`: some suffix of `hay` starts with `q`. */
  lemma {:induction false} ContainsAt(hay: string, q: string)
    ensures Contains(hay, q) <==> exists i :: 0 <= i <= |hay| && q <= hay[i..]
  {
    if q <= hay {
      assert q <= hay[0..];
    } else if hay == [] {
      forall i | 0 <= i <= |hay| ensures !(q <= hay[i..]) {
        assert hay[i..] == hay;
      }
    } else {
      ContainsAt(hay[1..], q);
      if exists i :: 0 <= i <= |hay| && q <= hay[i..] {
        var i :| 0 <= i <= |hay| && q <= hay[i..];
        assert i != 0 by { assert hay[0..] == hay; }
        assert hay[1..][i - 1..] == hay[i..];
      }
      if Contains(hay[1..], q) {
        var i :| 0 <= i <= |hay[1..]| && q <= hay[1..][i..];
        assert hay[1..][i..] == hay[i + 1..];
      }
    }
  }
}
