/**
 * The keyword list of the page: the bulk-text tokenizer
 * (`split('\n').map(k => k.trim()).filter(k => k !== '')`) and the
 * index-based removal used by the "remove keyword" button.
 */
module Keywords {
  import opened Strings

  /** `Array.prototype.filter`: the elements of `s` that satisfy `p`, in order. */
  function Filter<T>(p: T -> bool, s: seq<T>): (r: seq<T>)
    ensures |r| <= |s|
    ensures forall x | x in r :: x in s && p(x)
  {
    if s == [] then []
    else
      var rest := Filter(p, s[1..]);
      var r := (if p(s[0]) then [s[0]] else []) + rest;
      assert forall x | x in r :: x == s[0] || x in rest;
      r
  }

  /** Filtering distributes over concatenation, so it keeps the input order. */
  lemma {:induction false} FilterAppend<T>(p: T -> bool, a: seq<T>, b: seq<T>)
    ensures Filter(p, a + b) == Filter(p, a) + Filter(p, b)
  {
    if a == [] {
      assert a + b == b;
    } else {
      assert (a + b)[1..] == a[1..] + b;
      FilterAppend(p, a[1..], b);
    }
  }

  /** Every element that satisfies `p` survives the filter. */
  lemma {:induction false} FilterKeeps<T>(p: T -> bool, s: seq<T>, x: T)
    requires x in s && p(x)
    ensures x in Filter(p, s)
  {
    if s[0] != x {
      FilterKeeps(p, s[1..], x);
    }
  }

  /** A filter that no element passes returns nothing. */
  lemma {:induction false} FilterNone<T>(p: T -> bool, s: seq<T>)
    requires forall x | x in s :: !p(x)
    ensures Filter(p, s) == []
  {
    if s != [] {
      FilterNone(p, s[1..]);
    }
  }

  /** A filter that every element passes returns its input. */
  lemma {:induction false} FilterAll<T>(p: T -> bool, s: seq<T>)
    requires forall x | x in s :: p(x)
    ensures Filter(p, s) == s
  {
    if s != [] {
      FilterAll(p, s[1..]);
      assert [s[0]] + s[1..] == s;
    }
  }

  /** `lines.map(k => k.trim())`. */
  function TrimAll(lines: seq<string>): seq<string> {
    seq(|lines|, i requires 0 <= i < |lines| => Trim(lines[i]))
  }

  /** Trimming contains no line separator that was not already there. */
  lemma TrimKeepsNoNewline(p: string)
    requires '\n' !in p
    ensures '\n' !in Trim(p)
  {
    var lead, trail := TrimSplits(p);
  }

  /**
   * The bulk tokenizer: the lines of `text`, each trimmed, blank ones
   * dropped. Every keyword it returns is non-empty, trimmed and one line.
   */
  function ParseBulk(text: string): (r: seq<string>)
    ensures forall k | k in r :: k != [] && IsTrimmed(k) && '\n' !in k
  {
    var lines := Split(text, '\n');
    var trimmed := TrimAll(lines);
    assert forall k | k in trimmed :: IsTrimmed(k) && '\n' !in k by {
      forall k | k in trimmed ensures IsTrimmed(k) && '\n' !in k {
        var i :| 0 <= i < |trimmed| && trimmed[i] == k;
        TrimKeepsNoNewline(lines[i]);
      }
    }
    Filter(k => k != [], trimmed)
  }

  /** A single line parses to its trim, or to nothing when it is blank. */
  lemma ParseBulkLine(l: string)
    requires '\n' !in l
    ensures Trim(l) != [] ==> ParseBulk(l) == [Trim(l)]
    ensures Trim(l) == [] ==> ParseBulk(l) == []
  {
    SplitWithoutSeparator(l, '\n');
    assert TrimAll([l]) == [Trim(l)];
  }

  /** Trimming every line commutes with concatenating two lists of lines. */
  lemma TrimAllAppend(la: seq<string>, lb: seq<string>)
    ensures TrimAll(la + lb) == TrimAll(la) + TrimAll(lb)
  {
  }

  /** A line break splits the bulk text into two independently parsed halves. */
  lemma ParseBulkAppend(a: string, b: string)
    ensures ParseBulk(a + "\n" + b) == ParseBulk(a) + ParseBulk(b)
  {
    SplitAtSeparator(a, b, '\n');
    var la, lb := Split(a, '\n'), Split(b, '\n');
    TrimAllAppend(la, lb);
    FilterAppend(k => k != [], TrimAll(la), TrimAll(lb));
  }

  /** Under a whitespace separator, a join is all whitespace exactly when every piece is. */
  lemma {:induction false} JoinAllWs(parts: seq<string>, sep: char)
    requires IsWs(sep)
    ensures AllWs(Join(parts, [sep])) <==> forall p | p in parts :: AllWs(p)
  {
    if |parts| > 1 {
      JoinAllWs(parts[1..], sep);
      assert Join(parts, [sep]) == (parts[0] + [sep]) + Join(parts[1..], [sep]);
      assert AllWs([sep]) by { assert [sep][1..] == []; }
      AllWsAppend(parts[0] + [sep], Join(parts[1..], [sep]));
      AllWsAppend(parts[0], [sep]);
      assert forall p | p in parts :: p == parts[0] || p in parts[1..];
    }
  }

  /** Text that is all whitespace has only blank lines, which trim to nothing. */
  lemma ParseBulkOfBlank(text: string)
    requires AllWs(text)
    ensures ParseBulk(text) == []
  {
    var lines := Split(text, '\n');
    var trimmed := TrimAll(lines);
    JoinAllWs(lines, '\n');
    forall i | 0 <= i < |lines| ensures trimmed[i] == [] {
      TrimEmpty(lines[i]);
    }
    FilterNone(k => k != [], trimmed);
  }

  /** Text with a non-whitespace character has a line that survives trimming. */
  lemma ParseBulkOfNonBlank(text: string)
    requires !AllWs(text)
    ensures ParseBulk(text) != []
  {
    var lines := Split(text, '\n');
    var trimmed := TrimAll(lines);
    JoinAllWs(lines, '\n');
    var i :| 0 <= i < |lines| && !AllWs(lines[i]);
    TrimEmpty(lines[i]);
    assert trimmed[i] in trimmed;
    FilterKeeps(k => k != [], trimmed, trimmed[i]);
  }

  /**
   * The tokenizer finds no keyword exactly when the text trims to nothing, so the
   * page's second "no valid keywords" check can never fire after its first check passed.
   */
  lemma ParseBulkEmpty(text: string)
    ensures ParseBulk(text) == [] <==> Trim(text) == []
  {
    TrimEmpty(text);
    if AllWs(text) {
      ParseBulkOfBlank(text);
    } else {
      ParseBulkOfNonBlank(text);
    }
  }

  /**
   * Round trip: one-line, non-empty, trimmed keywords joined with line breaks
   * parse back to the same list.
   */
  lemma ParseBulkJoin(ks: seq<string>)
    requires forall k | k in ks :: k != [] && IsTrimmed(k) && '\n' !in k
    ensures ParseBulk(Join(ks, "\n")) == ks
  {
    if ks == [] {
      assert Split([], '\n') == [[]];
    } else {
      SplitJoin(ks, '\n');
      forall i | 0 <= i < |ks| ensures Trim(ks[i]) == ks[i] {
        TrimIdempotent(ks[i]);
      }
      assert TrimAll(ks) == ks;
      FilterAll(k => k != [], ks);
    }
  }

  /** Parsing is idempotent: re-parsing the joined result changes nothing. */
  lemma ParseBulkIdempotent(text: string)
    ensures ParseBulk(Join(ParseBulk(text), "\n")) == ParseBulk(text)
  {
    ParseBulkJoin(ParseBulk(text));
  }

  /** `ks.filter((_, i) => i !== index)`: the list without position `index`. */
  function RemoveAt<T>(ks: seq<T>, index: int): (r: seq<T>)
    ensures 0 <= index < |ks| ==> r == ks[..index] + ks[index + 1..]
    ensures !(0 <= index < |ks|) ==> r == ks
  {
    if ks == [] then []
    else
      var rest := RemoveAt(ks[1..], index - 1);
      assert 0 < index < |ks| ==> ks[1..][..index - 1] == ks[1..index];
      assert ks == [ks[0]] + ks[1..];
      (if index == 0 then [] else [ks[0]]) + rest
  }
}
