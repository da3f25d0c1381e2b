/**
 * The JavaScript string built-ins the page relies on: `String.prototype.trim`,
 * `split('\n')`, `Array.prototype.join`, and `replace(/\s+/g, '+')`.
 *
 * `trim` and the regular-expression class `\s` both use the ECMAScript
 * WhiteSpace and LineTerminator code points, so one predicate, `IsWs`,
 * stands for both.
 */
module Strings {

  /**
   * The character class of `trim` and of the regular expression `\s`: ECMAScript
   * WhiteSpace (TAB, VT, FF, SP, NBSP, ZWNBSP and the other Zs spaces U+1680,
   * U+2000-U+200A, U+202F, U+205F, U+3000) and LineTerminator (LF, CR, LS, PS).
   */
  predicate IsWs(c: char) {
    var n := c as int;
    if n < 0xA0 then 0x09 <= n <= 0x0D || n == 0x20
    else
      || n == 0xA0 || n == 0x1680 || 0x2000 <= n <= 0x200A
      || n == 0x2028 || n == 0x2029 || n == 0x202F || n == 0x205F
      || n == 0x3000 || n == 0xFEFF
  }

  /** Every character of `s` is whitespace. */
  predicate AllWs(s: string) {
    s == [] || (IsWs(s[0]) && AllWs(s[1..]))
  }

  /** No character of `s` is whitespace. */
  predicate NoWs(s: string) {
    s == [] || (!IsWs(s[0]) && NoWs(s[1..]))
  }

  /** Neither end of `s` is whitespace: what `trim` leaves. */
  predicate IsTrimmed(s: string) {
    s == [] || (!IsWs(s[0]) && !IsWs(s[|s| - 1]))
  }

  lemma {:induction false} AllWsAt(s: string, i: nat)
    requires AllWs(s) && i < |s|
    ensures IsWs(s[i])
  {
    if i > 0 { AllWsAt(s[1..], i - 1); }
  }

  lemma {:induction false} NoWsAt(s: string, i: nat)
    requires NoWs(s) && i < |s|
    ensures !IsWs(s[i])
  {
    if i > 0 { NoWsAt(s[1..], i - 1); }
  }

  lemma {:induction false} AllWsAppend(a: string, b: string)
    ensures AllWs(a + b) <==> AllWs(a) && AllWs(b)
  {
    if a != [] {
      assert (a + b)[1..] == a[1..] + b;
      AllWsAppend(a[1..], b);
    } else {
      assert a + b == b;
    }
  }

  /** `String.prototype.trimStart`: drops the maximal whitespace prefix. */
  function TrimStart(s: string): (r: string)
    ensures r == [] || !IsWs(r[0])
    ensures |r| <= |s|
  {
    if s != [] && IsWs(s[0]) then TrimStart(s[1..]) else s
  }

  /** `String.prototype.trimEnd`: drops the maximal whitespace suffix. */
  function TrimEnd(s: string): (r: string)
    ensures r == [] || !IsWs(r[|r| - 1])
    ensures |r| <= |s|
  {
    if s != [] && IsWs(s[|s| - 1]) then TrimEnd(s[..|s| - 1]) else s
  }

  /** What `TrimStart` removes is a whitespace prefix. */
  lemma {:induction false} TrimStartSuffix(s: string)
    ensures s == s[..|s| - |TrimStart(s)|] + TrimStart(s)
    ensures AllWs(s[..|s| - |TrimStart(s)|])
  {
    if s != [] && IsWs(s[0]) {
      TrimStartSuffix(s[1..]);
      var k := |s| - |TrimStart(s)|;
      assert s[..k] == [s[0]] + s[1..][..k - 1];
      assert s[..k][1..] == s[1..][..k - 1];
    } else {
      assert s[..0] == [];
    }
  }

  /** What `TrimEnd` removes is a whitespace suffix. */
  lemma {:induction false} TrimEndPrefix(s: string)
    ensures s == TrimEnd(s) + s[|TrimEnd(s)|..]
    ensures AllWs(s[|TrimEnd(s)|..])
  {
    if s != [] && IsWs(s[|s| - 1]) {
      var t := s[..|s| - 1];
      TrimEndPrefix(t);
      var k := |TrimEnd(s)|;
      assert s[k..] == t[k..] + [s[|s| - 1]];
      AllWsAppend(t[k..], [s[|s| - 1]]);
      assert s == t + [s[|s| - 1]];
    } else {
      assert s[|s|..] == [];
    }
  }

  /** `String.prototype.trim`. */
  function Trim(s: string): (r: string)
    ensures IsTrimmed(r)
  {
    var t := TrimStart(s);
    TrimEndPrefix(t);
    TrimEnd(t)
  }

  /**
   * Trimming removes exactly a whitespace prefix and a whitespace suffix:
   * `s == lead + Trim(s) + trail`, and what is left is trimmed.
   */
  lemma TrimSplits(s: string) returns (lead: string, trail: string)
    ensures s == lead + Trim(s) + trail
    ensures AllWs(lead) && AllWs(trail) && IsTrimmed(Trim(s))
  {
    var t := TrimStart(s);
    var m := TrimEnd(t);
    TrimUnfold(s);
    TrimStartSuffix(s);
    TrimEndPrefix(t);
    lead := s[..|s| - |t|];
    trail := t[|m|..];
    assert s == lead + t;
    assert t == m + trail;
    assert lead + (m + trail) == lead + m + trail;
  }

  /** `trim` is `trimEnd` after `trimStart`. */
  lemma TrimUnfold(s: string)
    ensures Trim(s) == TrimEnd(TrimStart(s))
  {
  }

  /** A string trims to nothing exactly when it is all whitespace. */
  lemma TrimEmpty(s: string)
    ensures Trim(s) == [] <==> AllWs(s)
  {
    var lead, trail := TrimSplits(s);
    if Trim(s) == [] {
      assert s == lead + trail;
      AllWsAppend(lead, trail);
    } else {
      assert s == lead + (Trim(s) + trail);
      AllWsAppend(lead, Trim(s) + trail);
      AllWsAppend(Trim(s), trail);
      assert !IsWs(Trim(s)[0]);
    }
  }

  /** A trimmed string is its own trim. */
  lemma TrimIdempotent(s: string)
    requires IsTrimmed(s)
    ensures Trim(s) == s
  {
    assert TrimStart(s) == s;
    assert TrimEnd(s) == s;
  }

  /** `Array.prototype.join(sep)` on a list of strings. */
  function Join(parts: seq<string>, sep: string): string {
    if |parts| == 0 then []
    else if |parts| == 1 then parts[0]
    else parts[0] + sep + Join(parts[1..], sep)
  }

  /**
   * `String.prototype.split(sep)` for a one-character separator: the pieces between
   * separators, at least one, none containing `sep`; joining them back gives `s`.
   */
  function Split(s: string, sep: char): (r: seq<string>)
    ensures |r| >= 1
    ensures forall p | p in r :: sep !in p
    ensures Join(r, [sep]) == s
  {
    if s == [] then [[]]
    else
      var rest := Split(s[1..], sep);
      if s[0] == sep then
        assert ([[]] + rest)[1..] == rest;
        [[]] + rest
      else
        var r := [[s[0]] + rest[0]] + rest[1..];
        assert r[1..] == rest[1..];
        assert |rest| > 1 ==> Join(rest, [sep]) == rest[0] + [sep] + Join(rest[1..], [sep]);
        assert forall p | p in r :: p == r[0] || p in rest;
        r
  }

  /** Splitting at a separator that occurs in the text splits the two sides independently. */
  lemma {:induction false} SplitAtSeparator(a: string, b: string, c: char)
    ensures Split(a + [c] + b, c) == Split(a, c) + Split(b, c)
  {
    if a == [] {
      assert a + [c] + b == [c] + b;
      assert ([c] + b)[1..] == b;
    } else {
      assert (a + [c] + b)[1..] == a[1..] + [c] + b;
      SplitAtSeparator(a[1..], b, c);
    }
  }

  /** A text without the separator is one piece. */
  lemma {:induction false} SplitWithoutSeparator(p: string, c: char)
    requires c !in p
    ensures Split(p, c) == [p]
  {
    if p != [] {
      SplitWithoutSeparator(p[1..], c);
      assert [p[0]] + p[1..] == p;
    }
  }

  /** Round trip: pieces free of the separator are recovered by splitting their join. */
  lemma {:induction false} SplitJoin(parts: seq<string>, c: char)
    requires |parts| >= 1
    requires forall p | p in parts :: c !in p
    ensures Split(Join(parts, [c]), c) == parts
  {
    if |parts| == 1 {
      SplitWithoutSeparator(parts[0], c);
    } else {
      SplitWithoutSeparator(parts[0], c);
      SplitJoin(parts[1..], c);
      SplitAtSeparator(parts[0], Join(parts[1..], [c]), c);
      assert parts == [parts[0]] + parts[1..];
    }
  }

  /** The maximal non-whitespace prefix of `s`. */
  function Word(s: string): (w: string)
    ensures NoWs(w)
  {
    if s != [] && !IsWs(s[0]) then [s[0]] + Word(s[1..]) else []
  }

  /** What follows `Word(s)`: empty, or starting with whitespace. */
  function AfterWord(s: string): (r: string)
    ensures r == [] || IsWs(r[0])
    ensures |r| <= |s|
    ensures s != [] && !IsWs(s[0]) ==> |r| < |s|
  {
    if s != [] && !IsWs(s[0]) then AfterWord(s[1..]) else s
  }

  lemma {:induction false} WordThenRest(s: string)
    ensures s == Word(s) + AfterWord(s)
  {
    if s != [] && !IsWs(s[0]) {
      WordThenRest(s[1..]);
    }
  }

  /** The maximal non-whitespace runs of `s`, in order. */
  function Words(s: string): (r: seq<string>)
    ensures forall w | w in r :: w != [] && NoWs(w)
    decreases |s|
  {
    var t := TrimStart(s);
    if t == [] then []
    else
      var rest := Words(AfterWord(t));
      assert forall w | w in [Word(t)] + rest :: w == Word(t) || w in rest;
      [Word(t)] + rest
  }

  /** `s.replace(/\s+/g, '+')`: every maximal whitespace run becomes one `+`. */
  function CollapseWs(s: string): (r: string)
    ensures NoWs(r)
    decreases |s|
  {
    if s == [] then []
    else if IsWs(s[0]) then
      assert |TrimStart(s)| < |s|;
      var r := "+" + CollapseWs(TrimStart(s));
      assert r[1..] == CollapseWs(TrimStart(s));
      r
    else
      var r := [s[0]] + CollapseWs(s[1..]);
      assert r[1..] == CollapseWs(s[1..]);
      r
  }

  /** Text without whitespace is left alone by `CollapseWs`. */
  lemma {:induction false} CollapseWsNoWs(s: string)
    requires NoWs(s)
    ensures CollapseWs(s) == s
  {
    if s != [] {
      CollapseWsNoWs(s[1..]);
    }
  }

  /** `CollapseWs` is idempotent. */
  lemma CollapseWsIdempotent(s: string)
    ensures CollapseWs(CollapseWs(s)) == CollapseWs(s)
  {
    CollapseWsNoWs(CollapseWs(s));
  }

  /** The first word passes through `CollapseWs` unchanged. */
  lemma {:induction false} CollapseWsFirstWord(s: string)
    ensures CollapseWs(s) == Word(s) + CollapseWs(AfterWord(s))
  {
    if s != [] && !IsWs(s[0]) {
      CollapseWsFirstWord(s[1..]);
    }
  }

  /** A whitespace-free `w` followed by a whitespace-led `t` has `w` as its first word. */
  lemma {:induction false} WordOfPrefix(w: string, t: string)
    requires NoWs(w)
    requires t == [] || IsWs(t[0])
    ensures Word(w + t) == w && AfterWord(w + t) == t
  {
    if w != [] {
      assert (w + t)[1..] == w[1..] + t;
      WordOfPrefix(w[1..], t);
    }
  }

  /** A whitespace-free prefix passes through `CollapseWs` untouched. */
  lemma CollapseWsAfterWord(w: string, sp: string)
    requires NoWs(w)
    requires sp == [] || IsWs(sp[0])
    ensures CollapseWs(w + sp) == w + CollapseWs(sp)
  {
    WordOfPrefix(w, sp);
    CollapseWsFirstWord(w + sp);
  }

  /** One space before a word becomes one `+`. */
  lemma CollapseWsSpace(t: string)
    requires t == [] || !IsWs(t[0])
    ensures CollapseWs([' '] + t) == "+" + CollapseWs(t)
  {
    var sp := [' '] + t;
    assert sp[1..] == t;
    LeadingRun(sp);
  }

  /** A word, one space and a tail that starts with a word: the space becomes `+`. */
  lemma CollapseWsPhrase(w: string, t: string)
    requires NoWs(w)
    requires t == [] || !IsWs(t[0])
    ensures CollapseWs(w + ([' '] + t)) == w + ("+" + CollapseWs(t))
  {
    CollapseWsAfterWord(w, [' '] + t);
    CollapseWsSpace(t);
  }

  /** Joining a non-empty tail after a first word puts one separator between them. */
  lemma JoinCons(w: string, ws: seq<string>, sep: string)
    requires |ws| >= 1
    ensures Join([w] + ws, sep) == w + sep + Join(ws, sep)
  {
    assert ([w] + ws)[1..] == ws;
  }

  /** The last character of `a + b` is that of `b` when `b` is not empty. */
  lemma LastOfAppend(a: string, b: string)
    requires b != []
    ensures (a + b)[|a + b| - 1] == b[|b| - 1]
  {
  }

  /** A trimmed string, after its first word, has nothing left or a whitespace run and then a trimmed tail. */
  lemma AfterFirstWord(s: string)
    requires IsTrimmed(s)
    ensures var rest := AfterWord(s);
      rest != [] ==> TrimStart(rest) != [] && IsTrimmed(TrimStart(rest)) && |TrimStart(rest)| < |s|
  {
    var rest := AfterWord(s);
    if rest != [] {
      WordThenRest(s);
      LastOfAppend(Word(s), rest);
      var u := TrimStart(rest);
      TrimStartSuffix(rest);
      var lead := rest[..|rest| - |u|];
      if u == [] {
        assert rest == lead;
        AllWsAt(rest, |rest| - 1);
      } else {
        LastOfAppend(lead, u);
        assert Word(s) != [];
      }
    }
  }

  /** A string starting with a word splits into that word and the words after it. */
  lemma WordsFirst(s: string)
    requires s != [] && !IsWs(s[0])
    ensures Words(s) == [Word(s)] + Words(AfterWord(s))
  {
    assert TrimStart(s) == s;
  }

  /** A leading whitespace run becomes one `+` and separates no word. */
  lemma LeadingRun(s: string)
    requires s != [] && IsWs(s[0])
    ensures CollapseWs(s) == "+" + CollapseWs(TrimStart(s))
    ensures Words(s) == Words(TrimStart(s))
  {
    var u := TrimStart(s);
    assert TrimStart(u) == u;
  }

  /**
   * On a trimmed string, collapsing whitespace runs to `+` is the same as
   * joining its words with `+`.
   */
  lemma {:induction false} CollapseWsJoinsWords(s: string)
    requires IsTrimmed(s)
    ensures CollapseWs(s) == Join(Words(s), "+")
    decreases |s|
  {
    if s != [] {
      var w, rest := Word(s), AfterWord(s);
      CollapseWsFirstWord(s);
      WordsFirst(s);
      AfterFirstWord(s);
      if rest == [] {
        assert [w] + [] == [w];
      } else {
        var u := TrimStart(rest);
        LeadingRun(rest);
        CollapseWsJoinsWords(u);
        JoinCons(w, Words(u), "+");
      }
    }
  }

  /** A leading whitespace run contributes no word. */
  lemma {:induction false} WordsSkipsGap(g: string, s: string)
    requires AllWs(g)
    ensures Words(g + s) == Words(s)
  {
    if g != [] {
      assert (g + s)[1..] == g[1..] + s;
      assert TrimStart(g + s) == TrimStart(g[1..] + s);
      WordsSkipsGap(g[1..], s);
    } else {
      assert g + s == s;
    }
  }

  /** A non-empty whitespace-free `w` ahead of a whitespace-led (or empty) `t` is the first word. */
  lemma WordsCons(w: string, t: string)
    requires w != [] && NoWs(w)
    requires t == [] || IsWs(t[0])
    ensures Words(w + t) == [w] + Words(t)
  {
    WordOfPrefix(w, t);
    WordsFirst(w + t);
  }

  /** A single non-empty whitespace-free string is one word. */
  lemma WordsOfWord(w: string)
    requires w != [] && NoWs(w)
    ensures Words(w) == [w]
  {
    WordsCons(w, []);
    assert w + [] == w;
  }

  /** Words separated by single spaces are exactly the words of their join. */
  lemma {:induction false} WordsOfSpacedWords(ws: seq<string>)
    requires |ws| >= 1
    requires forall i | 0 <= i < |ws| :: ws[i] != [] && NoWs(ws[i])
    ensures Words(Join(ws, " ")) == ws
  {
    if |ws| == 1 {
      WordsOfWord(ws[0]);
    } else {
      var rest := Join(ws[1..], " ");
      WordsOfSpacedWords(ws[1..]);
      assert Join(ws, " ") == ws[0] + ([' '] + rest);
      WordsCons(ws[0], [' '] + rest);
      assert AllWs([' ']) by { assert [' '][1..] == []; }
      WordsSkipsGap([' '], rest);
      assert [ws[0]] + ws[1..] == ws;
    }
  }

  /**
   * Words separated by single spaces: the text is trimmed, and collapsing its
   * whitespace gives the same words separated by `+`.
   */
  lemma {:induction false} CollapseWsSpacedWords(ws: seq<string>)
    requires |ws| >= 1
    requires forall i | 0 <= i < |ws| :: ws[i] != [] && NoWs(ws[i])
    ensures IsTrimmed(Join(ws, " "))
    ensures CollapseWs(Join(ws, " ")) == Join(ws, "+")
  {
    var w := ws[0];
    if |ws| == 1 {
      CollapseWsNoWs(w);
      NoWsAt(w, |w| - 1);
    } else {
      var rest := Join(ws[1..], " ");
      CollapseWsSpacedWords(ws[1..]);
      assert ws[1..][0] == ws[1];
      assert Join(ws, " ") == w + ([' '] + rest);
      assert Join(ws, "+") == w + ("+" + Join(ws[1..], "+"));
      CollapseWsPhrase(w, rest);
      LastOfAppend(w + [' '], rest);
      assert w + ([' '] + rest) == (w + [' ']) + rest;
    }
  }
}
