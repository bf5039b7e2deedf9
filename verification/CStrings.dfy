/** NUL-terminated strings in character buffers, and the in-place tokenizer strtok_r
    (kernel/src/lib/string.c:170-224). A character stands for one byte.
  */
module CStrings {
  import opened Common

  const NUL: char := '\0'

  // The string that starts at position i: the characters before the next NUL.
  function CStr(b: seq<char>, i: nat): string
    requires i <= |b|
    decreases |b| - i
  {
    if i == |b| || b[i] == NUL then "" else [b[i]] + CStr(b, i + 1)
  }

  ghost predicate Terminated(b: seq<char>, i: nat) {
    i < |b| && i + |CStr(b, i)| < |b|
  }

  lemma {:induction false} CStrIs(b: seq<char>, i: nat, e: nat)
    requires i <= e < |b| && b[e] == NUL && NUL !in b[i..e]
    ensures CStr(b, i) == b[i..e] && Terminated(b, i)
    decreases e - i
  {
    if i < e {
      assert b[i] == b[i..e][0];
      assert b[i..e] == [b[i]] + b[i + 1..e];
      CStrIs(b, i + 1, e);
    }
  }

  lemma {:induction false} CStrEnds(b: seq<char>, i: nat)
    requires Terminated(b, i)
    ensures
      var e := i + |CStr(b, i)|;
      b[e] == NUL && CStr(b, i) == b[i..e] && NUL !in CStr(b, i)
    decreases |b| - i
  {
    if b[i] != NUL {
      CStrEnds(b, i + 1);
      assert b[i..i + |CStr(b, i)|] == [b[i]] + b[i + 1..i + |CStr(b, i)|];
    }
  }

  // ---- Delimiters ----

  // How many delimiters s starts with, and how many characters that are not delimiters.
  function Skip(s: string, delim: string): (k: nat)
    ensures k <= |s| && (forall j :: 0 <= j < k ==> s[j] in delim) && (k < |s| ==> s[k] !in delim)
  {
    if s == "" || s[0] !in delim then 0 else 1 + Skip(s[1..], delim)
  }

  function Span(s: string, delim: string): (k: nat)
    ensures k <= |s| && (forall j :: 0 <= j < k ==> s[j] !in delim) && (k < |s| ==> s[k] in delim)
  {
    if s == "" || s[0] in delim then 0 else 1 + Span(s[1..], delim)
  }

  lemma {:induction false} SkipIs(s: string, delim: string, k: nat)
    requires k <= |s| && (forall j :: 0 <= j < k ==> s[j] in delim) && (k < |s| ==> s[k] !in delim)
    ensures Skip(s, delim) == k
  {
    var m := Skip(s, delim);
    var atM, atK := if m < |s| then s[m] in delim else false, if k < |s| then s[k] in delim else false;
  }

  lemma {:induction false} SpanIs(s: string, delim: string, k: nat)
    requires k <= |s| && (forall j :: 0 <= j < k ==> s[j] !in delim) && (k < |s| ==> s[k] in delim)
    ensures Span(s, delim) == k
  {
    var m := Span(s, delim);
    var atM, atK := if m < |s| then s[m] in delim else true, if k < |s| then s[k] in delim else true;
  }

  // A string cut into its first token and what follows the delimiter after it; None when it
  // holds delimiters only.
  datatype Cut = Cut(start: nat, token: string, rest: string)

  function NextToken(s: string, delim: string): (c: Option<Cut>)
    ensures c.None? <==> Skip(s, delim) == |s|
    ensures c.Some? ==> c.value.token != "" && c.value.start + |c.value.token| <= |s|
    ensures c.Some? ==> forall x :: x in c.value.token ==> x !in delim
    ensures c.Some? ==> |c.value.rest| < |s|
  {
    var k := Skip(s, delim);
    if k == |s| then None
    else
      var n := Span(s[k..], delim);
      assert s[k..][0] == s[k];
      Some(Cut(k, s[k..k + n], if k + n == |s| then "" else s[k + n + 1..]))
  }

  method IsDelim(c: char, delim: string) returns (r: bool)
    ensures r <==> c in delim
  {
    r := false;
    var d := 0;
    while d < |delim|
      invariant d <= |delim| && c !in delim[..d]
    {
      if c == delim[d] {
        return true;
      }
      d := d + 1;
    }
    assert delim[..d] == delim;
  }

  // What strtok_r leaves in the buffer and in *saveptr when the string that starts at
  // position `from` was s: the delimiter after the token becomes a NUL.
  ghost predicate Tokenized(b: seq<char>, b': seq<char>, from: nat, s: string, delim: string, token: Option<nat>,
                            save: nat)
    requires from + |s| <= |b|
  {
    match NextToken(s, delim)
    case None => token == None && b' == b && save == from + |s|
    case Some(c) =>
      var m := c.start + |c.token|;
      && token == Some(from + c.start)
      && if m == |s| then b' == b && save == from + m else b' == b[from + m := NUL] && save == from + m + 1
  }

  lemma {:induction false} NoToken(b: seq<char>, from: nat, s: string, delim: string)
    requires from + |s| <= |b| && Skip(s, delim) == |s|
    ensures Tokenized(b, b, from, s, delim, None, from + |s|)
  {
  }

  lemma {:induction false} TokenFound(b: seq<char>, from: nat, s: string, delim: string, k: nat, m: nat)
    requires from + |s| <= |b| && Skip(s, delim) == k && k <= m <= |s| && k < |s|
    requires Span(s[k..], delim) == m - k
    ensures m == |s| ==> Tokenized(b, b, from, s, delim, Some(from + k), from + m)
    ensures m < |s| ==> Tokenized(b, b[from + m := NUL], from, s, delim, Some(from + k), from + m + 1)
  {
    hide NextToken, Skip, Span;
    FirstCut(s, delim, k, m);
  }

  lemma {:induction false} FirstCut(s: string, delim: string, k: nat, m: nat)
    requires Skip(s, delim) == k && k <= m <= |s| && k < |s| && Span(s[k..], delim) == m - k
    ensures NextToken(s, delim) == Some(Cut(k, s[k..m], if m == |s| then "" else s[m + 1..]))
  {
    hide Skip, Span;
  }

  // The string s at position from of a buffer.
  ghost predicate Spells(b: seq<char>, from: nat, s: string) {
    from + |s| < |b| && b[from + |s|] == NUL && forall j :: 0 <= j < |s| ==> s[j] == b[from + j] && s[j] != NUL
  }

  method SkipDelims(b: array<char>, from: nat, delim: string, ghost s: string) returns (p: nat)
    requires Spells(b[..], from, s)
    ensures p == from + Skip(s, delim)
  {
    p := from;
    while b[p] != NUL
      invariant from <= p <= from + |s|
      invariant forall j :: 0 <= j < p - from ==> s[j] in delim
      decreases from + |s| - p
    {
      assert s[p - from] == b[p];
      var isDelim := IsDelim(b[p], delim);
      if !isDelim {
        break;
      }
      p := p + 1;
    }
    SkipIs(s, delim, p - from);
  }

  method FindDelim(b: array<char>, from: nat, delim: string, ghost s: string) returns (p: nat)
    requires Spells(b[..], from, s)
    ensures p == from + Span(s, delim)
  {
    p := from;
    while b[p] != NUL
      invariant from <= p <= from + |s|
      invariant forall j :: 0 <= j < p - from ==> s[j] !in delim
      decreases from + |s| - p
    {
      assert s[p - from] == b[p];
      var isDelim := IsDelim(b[p], delim);
      if isDelim {
        break;
      }
      p := p + 1;
    }
    SpanIs(s, delim, p - from);
  }

  method StrtokR(b: array<char>, str: Option<nat>, delim: string, saveptr: nat) returns (token: Option<nat>, save: nat)
    requires NUL !in delim
    requires Terminated(b[..], if str.Some? then str.value else saveptr)
    modifies b
    ensures
      var from := if str.Some? then str.value else saveptr;
      Tokenized(old(b[..]), b[..], from, CStr(old(b[..]), from), delim, token, save)
  {
    hide NextToken, Skip, Span, CStr, Terminated, Tokenized;
    var from := if str.Some? then str.value else saveptr;
    ghost var was := b[..];
    StringEnd(was, from);
    ghost var s := CStr(was, from);
    SpellsString(was, from);
    var p := SkipDelims(b, from, delim, s);
    ghost var k := p - from;
    if b[p] == NUL {
      NoToken(was, from, s, delim);
      return None, p;
    }
    ghost var t := s[k..];
    assert Spells(was, p, t);
    var q := FindDelim(b, p, delim, t);
    TokenFound(was, from, s, delim, k, q - from);
    token := Some(p);
    if b[q] == NUL {
      save := q;
    } else {
      b[q] := NUL;
      assert b[..] == was[q := NUL];
      save := q + 1;
    }
  }

  lemma {:induction false} SpellsString(b: seq<char>, i: nat)
    requires Terminated(b, i)
    ensures Spells(b, i, CStr(b, i))
  {
    CStrEnds(b, i);
  }

  // After strtok_r the buffer holds the token at the returned position and the rest of the
  // string at the saved one.
  lemma {:induction false} TokenizedStrings(b: seq<char>, b': seq<char>, from: nat, delim: string, token: Option<nat>,
                                            save: nat)
    requires Terminated(b, from)
    requires Tokenized(b, b', from, CStr(b, from), delim, token, save)
    ensures Terminated(b', save)
    ensures NextToken(CStr(b, from), delim).None? ==> token == None && CStr(b', save) == ""
    ensures NextToken(CStr(b, from), delim).Some? ==>
              && token.Some? && Terminated(b', token.value)
              && CStr(b', token.value) == NextToken(CStr(b, from), delim).value.token
              && CStr(b', save) == NextToken(CStr(b, from), delim).value.rest
  {
    hide NextToken, CStr, Terminated, Skip, Span;
    StringEnd(b, from);
    var s := CStr(b, from);
    CStrEnds(b, from);
    var e := from + |s|;
    var next := NextToken(s, delim);
    if next.None? {
      assert b' == b && save == e;
      CStrIs(b', e, e);
    } else {
      var m := next.value.start + |next.value.token|;
      CutIs(s, delim);
      assert token == Some(from + next.value.start);
      CutStrings(b, b', from, s, next.value.start, m, save);
    }
  }

  lemma {:induction false} StringEnd(b: seq<char>, i: nat)
    requires Terminated(b, i)
    ensures i < |b| && i + |CStr(b, i)| < |b|
  {
  }

  lemma {:induction false} CutStrings(b: seq<char>, b': seq<char>, from: nat, s: string, k: nat, m: nat, save: nat)
    requires from + |s| < |b| && s == b[from..from + |s|] && NUL !in s && b[from + |s|] == NUL && k <= m <= |s|
    requires
      if m == |s| then b' == b && save == from + m
      else b' == b[from + m := NUL] && save == from + m + 1
    ensures Terminated(b', from + k) && CStr(b', from + k) == s[k..m]
    ensures Terminated(b', save) && CStr(b', save) == if m == |s| then "" else s[m + 1..]
  {
    hide CStr, Terminated;
    var e := from + |s|;
    forall j | k <= j < m ensures b'[from + j] == s[j] {
      assert b[from + j] == s[j];
    }
    forall j | save - from <= j < |s| ensures b'[from + j] == s[j] {
      assert b[from + j] == s[j];
    }
    assert b'[from + k..from + m] == s[k..m];
    CStrIs(b', from + k, from + m);
    assert b'[save..e] == if m == |s| then "" else s[m + 1..];
    CStrIs(b', save, e);
  }

  lemma {:induction false} CutIs(s: string, delim: string)
    requires NextToken(s, delim).Some?
    ensures
      var c := NextToken(s, delim).value;
      var m := c.start + |c.token|;
      && c.token == s[c.start..m]
      && (m < |s| ==> s[m] in delim)
      && c.rest == if m == |s| then "" else s[m + 1..]
  {
    hide Skip, Span;
  }
}
