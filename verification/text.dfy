/** The pieces of Go's `strings` package the bridge relies on: whitespace
    tokenisation (`strings.Fields`), joining (`strings.Join`) and single
    character replacement (`strings.ReplaceAll` with one-character operands).
    Strings are sequences of Unicode code points. */
module Text {
  import Collections

  /** Go's `unicode.IsSpace`: the six ASCII spacing characters, NEL, NBSP and
      the remaining code points with the Unicode White_Space property. */
  predicate IsSpace(c: char) {
    || c == ' ' || c == '\t' || c == '\n' || c == '\U{0B}' || c == '\U{0C}' || c == '\r'
    || c == '\U{85}' || c == '\U{A0}' || c == '\U{1680}'
    || ('\U{2000}' <= c <= '\U{200A}')
    || c == '\U{2028}' || c == '\U{2029}' || c == '\U{202F}' || c == '\U{205F}' || c == '\U{3000}'
  }

  /** A string without any whitespace character. */
  predicate SpaceFree(w: string) {
    forall i :: 0 <= i < |w| ==> !IsSpace(w[i])
  }

  /** A possible element of the result of `Fields`: non-empty and space-free. */
  predicate IsField(w: string) {
    w != [] && SpaceFree(w)
  }

  /** Every element of `ws` is a field. */
  predicate AllFields(ws: seq<string>) {
    forall i :: 0 <= i < |ws| ==> IsField(ws[i])
  }

  /** Length of the run of whitespace at the start of `s`. */
  function LeadingSpaces(s: string): (n: nat)
    ensures n <= |s|
    ensures forall i :: 0 <= i < n ==> IsSpace(s[i])
    ensures n == |s| || !IsSpace(s[n])
  {
    if s == [] || !IsSpace(s[0]) then 0 else 1 + LeadingSpaces(s[1..])
  }

  /** Length of the run of non-whitespace at the start of `s`. */
  function WordLength(s: string): (n: nat)
    ensures n <= |s|
    ensures forall i :: 0 <= i < n ==> !IsSpace(s[i])
    ensures n == |s| || IsSpace(s[n])
  {
    if s == [] || IsSpace(s[0]) then 0 else 1 + WordLength(s[1..])
  }

  /** Go's `strings.Fields`: the maximal runs of non-whitespace characters of
      `s`, in order. */
  function Fields(s: string): (r: seq<string>)
    ensures AllFields(r)
    ensures r == [] <==> forall i :: 0 <= i < |s| ==> IsSpace(s[i])
    decreases |s|
  {
    var k := LeadingSpaces(s);
    if k == |s| then []
    else
      var t := s[k..];
      var n := WordLength(t);
      [t[..n]] + Fields(t[n..])
  }

  /** Go's `strings.Join`: the elements of `ws` with `sep` between neighbours. */
  function Join(ws: seq<string>, sep: string): string
    decreases |ws|
  {
    if |ws| == 0 then ""
    else if |ws| == 1 then ws[0]
    else ws[0] + sep + Join(ws[1..], sep)
  }

  /** Go's `strings.ReplaceAll(s, string(from), string(to))` for single
      characters: every `from` becomes `to`, nothing else moves. */
  function ReplaceChar(s: string, from: char, to: char): (r: string)
    ensures |r| == |s|
    ensures forall i :: 0 <= i < |s| ==> r[i] == (if s[i] == from then to else s[i])
  {
    if s == [] then ""
    else [if s[0] == from then to else s[0]] + ReplaceChar(s[1..], from, to)
  }

  /** A leading whitespace character never changes the fields of a string. */
  lemma {:induction false} FieldsSkipSpace(c: char, s: string)
    requires IsSpace(c)
    ensures Fields([c] + s) == Fields(s)
  {
    var cs := [c] + s;
    assert cs[1..] == s;
    assert LeadingSpaces(cs) == 1 + LeadingSpaces(s);
    var k := LeadingSpaces(s);
    assert cs[1 + k..] == s[k..];
  }

  /** Joining fields with single spaces and splitting again gives the fields
      back: `Fields` is a left inverse of `Join(_, " ")` on its own outputs. */
  lemma {:induction false} FieldsOfJoin(ws: seq<string>)
    requires AllFields(ws)
    ensures Fields(Join(ws, " ")) == ws
    decreases |ws|
  {
    if |ws| == 1 {
      FieldsOfField(ws[0]);
      assert ws == [ws[0]];
    } else if |ws| > 1 {
      assert AllFields(ws[1..]) by {
        forall i | 0 <= i < |ws[1..]| ensures IsField(ws[1..][i]) {
          assert ws[1..][i] == ws[i + 1];
        }
      }
      FieldsOfJoin(ws[1..]);
      FieldsOfJoinStep(ws);
    }
  }

  /** One step of `FieldsOfJoin`: the head field, then the fields of the
      joined tail. */
  lemma FieldsOfJoinStep(ws: seq<string>)
    requires |ws| > 1 && IsField(ws[0])
    requires Fields(Join(ws[1..], " ")) == ws[1..]
    ensures Fields(Join(ws, " ")) == ws
  {
    FieldsOfFieldThen(ws[0], Join(ws[1..], " "));
    Collections.HeadTail(ws, []);
    assert ws + [] == ws && ws[1..] + [] == ws[1..];
  }

  /** Two fields separated by one white-space character split into exactly
      those two. */
  lemma FieldsOfPair(a: string, c: char, b: string)
    requires IsField(a) && IsField(b) && IsSpace(c)
    ensures Fields(a + [c] + b) == [a, b]
  {
    FieldsSplit(a, c, b);
    FieldsOfField(a);
    FieldsOfField(b);
  }

  /** A single field splits into itself. */
  lemma FieldsOfField(w: string)
    requires IsField(w)
    ensures Fields(w) == [w]
  {
    FieldsOfFieldBefore(w, []);
    assert w + [] == w;
  }

  /** A field followed by a space contributes itself and nothing more. */
  lemma FieldsOfFieldThen(w: string, rest: string)
    requires IsField(w)
    ensures Fields(w + " " + rest) == [w] + Fields(rest)
  {
    assert w + " " + rest == w + ([' '] + rest);
    FieldsOfFieldBefore(w, [' '] + rest);
    FieldsSkipSpace(' ', rest);
  }

  /** A field followed by whitespace, or by nothing, is the first field. */
  lemma FieldsOfFieldBefore(w: string, r: string)
    requires IsField(w) && (r == [] || IsSpace(r[0]))
    ensures Fields(w + r) == [w] + Fields(r)
  {
    var s := w + r;
    assert LeadingSpaces(s) == 0 by { assert s[0] == w[0]; }
    assert s[0..] == s;
    assert WordLength(s) == |w| by {
      forall i | 0 <= i < |w| ensures !IsSpace(s[i]) { assert s[i] == w[i]; }
      if r != [] {
        assert s[|w|] == r[0];
        WordLengthExact(s, |w|);
      }
    }
    assert s[..|w|] == w;
    assert s[|w|..] == r;
  }

  /** Leading whitespace of any length never changes the fields. */
  lemma {:induction false} FieldsSkipSpaces(sp: string, s: string)
    requires forall i :: 0 <= i < |sp| ==> IsSpace(sp[i])
    ensures Fields(sp + s) == Fields(s)
    decreases |sp|
  {
    if sp == [] {
      assert sp + s == s;
    } else {
      var tail := sp[1..];
      forall i | 0 <= i < |tail| ensures IsSpace(tail[i]) {
        assert tail[i] == sp[i + 1];
      }
      FieldsSkipSpaces(tail, s);
      Collections.HeadTail(sp, s);
      FieldsSkipSpace(sp[0], tail + s);
    }
  }

  /** Splitting at any whitespace character: the fields of the whole are the
      fields of the left part followed by those of the right part. Together
      with `FieldsOfField` and the blank case of `Fields`'s contract this
      determines `Fields` on every string: the maximal non-space runs, in
      order. */
  lemma {:induction false} FieldsSplit(a: string, c: char, b: string)
    requires IsSpace(c)
    ensures Fields(a + [c] + b) == Fields(a) + Fields(b)
    decreases |a|
  {
    if LeadingSpaces(a) == |a| {
      FieldsBlankThen(a, c, b);
    } else {
      var sp, w, rest := SplitFirstField(a);
      FieldsSplit(rest, c, b);
      var after := rest + [c] + b;
      Collections.Regroup(sp, w, rest, c, b);
      assert after[0] == if rest == [] then c else rest[0];
      FieldsAfterBlanks(sp, w, after);
      calc {
        Fields(a + [c] + b);
        Fields(sp + w + after);
        [w] + Fields(after);
        [w] + (Fields(rest) + Fields(b));
        { Collections.ConcatAssoc([w], Fields(rest), Fields(b)); }
        ([w] + Fields(rest)) + Fields(b);
        Fields(a) + Fields(b);
      }
    }
  }

  /** A blank left part contributes no fields. */
  lemma FieldsBlankThen(a: string, c: char, b: string)
    requires IsSpace(c) && LeadingSpaces(a) == |a|
    ensures Fields(a + [c] + b) == Fields(a) + Fields(b)
  {
    assert Fields(a) == [];
    var blank := a + [c];
    forall i | 0 <= i < |blank| ensures IsSpace(blank[i]) {
      if i < |a| { assert blank[i] == a[i]; }
    }
    FieldsSkipSpaces(blank, b);
    assert Fields(a) + Fields(b) == Fields(b);
  }

  /** A string that is not blank is leading blanks, its first field, and a
      remainder that is empty or starts with whitespace. */
  lemma SplitFirstField(a: string) returns (sp: string, w: string, rest: string)
    requires LeadingSpaces(a) < |a|
    ensures a == sp + w + rest && |rest| < |a|
    ensures forall i :: 0 <= i < |sp| ==> IsSpace(sp[i])
    ensures IsField(w) && (rest == [] || IsSpace(rest[0]))
    ensures Fields(a) == [w] + Fields(rest)
  {
    var k := LeadingSpaces(a);
    var t := a[k..];
    var n := WordLength(t);
    assert n > 0 by { assert t[0] == a[k]; }
    sp, w, rest := a[..k], t[..n], t[n..];
    assert a == sp + w + rest;
  }

  /** Leading blanks, then a field, then whitespace or nothing: the field
      comes first. */
  lemma FieldsAfterBlanks(sp: string, w: string, r: string)
    requires forall i :: 0 <= i < |sp| ==> IsSpace(sp[i])
    requires IsField(w) && (r == [] || IsSpace(r[0]))
    ensures Fields(sp + w + r) == [w] + Fields(r)
  {
    assert sp + w + r == sp + (w + r);
    FieldsSkipSpaces(sp, w + r);
    FieldsOfFieldBefore(w, r);
  }

  /** `WordLength` is pinned down by a non-space prefix followed by a space. */
  lemma WordLengthExact(s: string, n: nat)
    requires n < |s| && IsSpace(s[n])
    requires forall i :: 0 <= i < n ==> !IsSpace(s[i])
    ensures WordLength(s) == n
  {
  }

  /** Joining with a separator is empty exactly when there is nothing to join
      or a single empty element. */
  lemma {:induction false} JoinEmptyIff(ws: seq<string>, sep: string)
    requires forall i :: 0 <= i < |ws| ==> ws[i] != ""
    ensures Join(ws, sep) == "" <==> ws == []
  {
    if |ws| >= 2 {
      assert |Join(ws, sep)| >= |ws[0]| > 0;
    }
  }

  /** Two elements are joined by a single separator. */
  lemma JoinTwo(a: string, b: string, sep: string)
    ensures Join([a, b], sep) == a + sep + b
  {
    assert [a, b][1..] == [b];
  }
}
