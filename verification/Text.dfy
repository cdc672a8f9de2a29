/**
 The three Python 2 byte-string operations the daemon parses paths and command
 output with: `s.split(sep)`, `s.split()` and `s.splitlines()`.
 */
module Text {

  /** The bytes Python 2's `str.split()` (no argument) treats as whitespace. */
  predicate IsSpace(c: char) {
    c == ' ' || c == '\t' || c == '\n' || c == '\r' || c == '\U{000B}' || c == '\U{000C}'
  }

  /** The bytes at which Python 2's `str.splitlines()` ends a line (`\r\n` counts once). */
  predicate IsLineBreak(c: char) {
    c == '\n' || c == '\r'
  }

  function Occurrences(s: string, c: char): nat {
    if s == [] then 0 else (if s[0] == c then 1 else 0) + Occurrences(s[1..], c)
  }

  lemma {:induction false} OccurrencesPositive(s: string, c: char)
    ensures Occurrences(s, c) > 0 <==> c in s
  {
    if s != [] {
      OccurrencesPositive(s[1..], c);
      assert s == [s[0]] + s[1..];
    }
  }

  // ---------------------------------------------------------------------------
  // s.split(sep): every segment, the empty ones included
  // ---------------------------------------------------------------------------

  /** Splitting `s` at `sep`, `cur` being the segment read so far. */
  function SplitFrom(s: string, sep: char, cur: string): (parts: seq<string>)
    ensures |parts| == 1 + Occurrences(s, sep)
    decreases |s|
  {
    if s == [] then [cur]
    else if s[0] == sep then [cur] + SplitFrom(s[1..], sep, [])
    else SplitFrom(s[1..], sep, cur + [s[0]])
  }

  /** Python's `s.split(sep)`: there are at least two segments exactly when `sep` occurs. */
  function SplitOn(s: string, sep: char): (parts: seq<string>)
    ensures |parts| >= 1
    ensures |parts| >= 2 <==> sep in s
  {
    OccurrencesPositive(s, sep);
    SplitFrom(s, sep, [])
  }

  /** `sep.join(parts)`, peeling off the last segment. */
  function JoinWith(parts: seq<string>, sep: char): string
    requires |parts| >= 1
  {
    if |parts| == 1 then parts[0]
    else JoinWith(parts[..|parts| - 1], sep) + [sep] + parts[|parts| - 1]
  }

  lemma {:induction false} JoinWithCons(x: string, rest: seq<string>, sep: char)
    requires |rest| >= 1
    ensures JoinWith([x] + rest, sep) == x + [sep] + JoinWith(rest, sep)
  {
    var parts := [x] + rest;
    if |rest| > 1 {
      assert parts[..|parts| - 1] == [x] + rest[..|rest| - 1];
      JoinWithCons(x, rest[..|rest| - 1], sep);
    } else {
      assert parts[..|parts| - 1] == [x];
    }
  }

  lemma {:induction false} JoinSplitFrom(s: string, sep: char, cur: string)
    ensures JoinWith(SplitFrom(s, sep, cur), sep) == cur + s
    decreases |s|
  {
    if s == [] {
      assert cur + s == cur;
    } else if s[0] == sep {
      JoinSplitSep(s, sep, cur);
    } else {
      JoinSplitFrom(s[1..], sep, cur + [s[0]]);
      assert cur + [s[0]] + s[1..] == cur + s;
    }
  }

  lemma {:induction false} JoinSplitSep(s: string, sep: char, cur: string)
    requires s != [] && s[0] == sep
    ensures JoinWith(SplitFrom(s, sep, cur), sep) == cur + s
    decreases |s|, 0
  {
    var rest := SplitFrom(s[1..], sep, []);
    assert SplitFrom(s, sep, cur) == [cur] + rest;
    calc {
      JoinWith([cur] + rest, sep);
      { JoinWithCons(cur, rest, sep); }
      cur + [sep] + JoinWith(rest, sep);
      { JoinSplitFrom(s[1..], sep, []); assert [] + s[1..] == s[1..]; }
      cur + [sep] + s[1..];
      { assert s == [sep] + s[1..]; }
      cur + s;
    }
  }

  /** Joining the segments with the separator gives back the string. */
  lemma JoinSplitOn(s: string, sep: char)
    ensures JoinWith(SplitOn(s, sep), sep) == s
  {
    JoinSplitFrom(s, sep, []);
  }

  lemma {:induction false} SplitFromSegmentsFree(s: string, sep: char, cur: string)
    requires sep !in cur
    ensures forall i :: 0 <= i < |SplitFrom(s, sep, cur)| ==> sep !in SplitFrom(s, sep, cur)[i]
    decreases |s|
  {
    if s == [] {
    } else if s[0] == sep {
      SplitFromSegmentsFree(s[1..], sep, []);
    } else {
      SplitFromSegmentsFree(s[1..], sep, cur + [s[0]]);
    }
  }

  /** No segment contains the separator. */
  lemma SplitOnSegmentsFree(s: string, sep: char)
    ensures forall i :: 0 <= i < |SplitOn(s, sep)| ==> sep !in SplitOn(s, sep)[i]
  {
    SplitFromSegmentsFree(s, sep, []);
  }

  lemma {:induction false} SplitFromFree(b: string, sep: char, cur: string)
    requires sep !in b
    ensures SplitFrom(b, sep, cur) == [cur + b]
    decreases |b|
  {
    if b == [] {
      assert cur + b == cur;
    } else {
      SplitFromFree(b[1..], sep, cur + [b[0]]);
      assert cur + [b[0]] + b[1..] == cur + b;
    }
  }

  lemma {:induction false} SplitFromAppend(a: string, sep: char, b: string, cur: string)
    requires sep !in b
    ensures SplitFrom(a + [sep] + b, sep, cur) == SplitFrom(a, sep, cur) + [b]
    decreases |a|
  {
    if a == [] {
      assert a + [sep] + b == [sep] + b;
      SplitFromFree(b, sep, []);
      assert ([sep] + b)[1..] == b && [] + b == b;
      assert SplitFrom(a, sep, cur) == [cur];
    } else {
      assert (a + [sep] + b)[1..] == a[1..] + [sep] + b;
      if a[0] == sep {
        SplitFromAppend(a[1..], sep, b, []);
      } else {
        SplitFromAppend(a[1..], sep, b, cur + [a[0]]);
      }
    }
  }

  /** Appending a separator and a separator-free segment adds exactly that segment. */
  lemma SplitOnAppend(a: string, sep: char, b: string)
    requires sep !in b
    ensures SplitOn(a + [sep] + b, sep) == SplitOn(a, sep) + [b]
  {
    SplitFromAppend(a, sep, b, []);
  }

  /** Splitting a join of separator-free segments gives back the segments. */
  lemma {:induction false} SplitOnJoin(parts: seq<string>, sep: char)
    requires |parts| >= 1
    requires forall i :: 0 <= i < |parts| ==> sep !in parts[i]
    ensures SplitOn(JoinWith(parts, sep), sep) == parts
  {
    if |parts| == 1 {
      SplitFromFree(parts[0], sep, []);
      assert [] + parts[0] == parts[0] && parts == [parts[0]];
    } else {
      var init := parts[..|parts| - 1];
      SplitOnJoin(init, sep);
      SplitOnAppend(JoinWith(init, sep), sep, parts[|parts| - 1]);
      assert init + [parts[|parts| - 1]] == parts;
    }
  }

  // ---------------------------------------------------------------------------
  // s.split(): the maximal runs of non-whitespace
  // ---------------------------------------------------------------------------

  /** A field of `s.split()`: non-empty and free of whitespace. */
  predicate IsField(w: string) {
    w != [] && forall i :: 0 <= i < |w| ==> !IsSpace(w[i])
  }

  function FieldsFrom(s: string, cur: string): seq<string>
    decreases |s|
  {
    if s == [] then (if cur == [] then [] else [cur])
    else if IsSpace(s[0]) then (if cur == [] then [] else [cur]) + FieldsFrom(s[1..], [])
    else FieldsFrom(s[1..], cur + [s[0]])
  }

  /**
   Python's `s.split()`: every field is non-empty and whitespace-free, and the
   fields, put back together, are exactly the non-whitespace bytes of `s` in order.
   */
  function Fields(s: string): (fields: seq<string>)
    ensures forall i :: 0 <= i < |fields| ==> IsField(fields[i])
    ensures Concat(fields) == NonSpace(s)
  {
    FieldsFromAreFields(s, []);
    FieldsFromConcat(s, []);
    FieldsFrom(s, [])
  }

  function Concat(ss: seq<string>): string {
    if ss == [] then [] else ss[0] + Concat(ss[1..])
  }

  /** `s` with its whitespace removed. */
  function NonSpace(s: string): string {
    if s == [] then [] else (if IsSpace(s[0]) then [] else [s[0]]) + NonSpace(s[1..])
  }

  lemma {:induction false} ConcatAppend(a: seq<string>, b: seq<string>)
    ensures Concat(a + b) == Concat(a) + Concat(b)
  {
    if a != [] {
      ConcatAppend(a[1..], b);
      assert (a + b)[1..] == a[1..] + b;
    } else {
      assert a + b == b;
    }
  }

  lemma {:induction false} FieldsFromAreFields(s: string, cur: string)
    requires forall i :: 0 <= i < |cur| ==> !IsSpace(cur[i])
    ensures forall i :: 0 <= i < |FieldsFrom(s, cur)| ==> IsField(FieldsFrom(s, cur)[i])
    decreases |s|
  {
    if s == [] {
    } else if IsSpace(s[0]) {
      FieldsFromAreFields(s[1..], []);
      var head: seq<string> := if cur == [] then [] else [cur];
      var tail := FieldsFrom(s[1..], []);
      assert FieldsFrom(s, cur) == head + tail;
      forall i | 0 <= i < |head + tail|
        ensures IsField((head + tail)[i])
      {
        if i >= |head| {
          assert (head + tail)[i] == tail[i - |head|];
        }
      }
    } else {
      var next := cur + [s[0]];
      assert forall i :: 0 <= i < |next| ==> !IsSpace(next[i]);
      FieldsFromAreFields(s[1..], next);
    }
  }

  lemma {:induction false} FieldsFromConcat(s: string, cur: string)
    ensures Concat(FieldsFrom(s, cur)) == cur + NonSpace(s)
    decreases |s|
  {
    if s == [] {
      assert Concat([cur]) == cur + Concat([]);
    } else if IsSpace(s[0]) {
      FieldsFromConcat(s[1..], []);
      var head: seq<string> := if cur == [] then [] else [cur];
      ConcatAppend(head, FieldsFrom(s[1..], []));
      assert Concat(head) == cur by {
        if cur != [] {
          assert Concat([cur]) == cur + Concat([]);
        }
      }
      assert NonSpace(s) == NonSpace(s[1..]);
    } else {
      FieldsFromConcat(s[1..], cur + [s[0]]);
      assert cur + [s[0]] + NonSpace(s[1..]) == cur + NonSpace(s);
    }
  }

  lemma {:induction false} FieldsFromWord(w: string, rest: string, cur: string)
    requires IsField(cur + w)
    ensures FieldsFrom(w + " " + rest, cur) == [cur + w] + FieldsFrom(rest, [])
    ensures FieldsFrom(w, cur) == [cur + w]
    decreases |w|
  {
    if w == [] {
      assert w + " " + rest == " " + rest;
      assert (" " + rest)[1..] == rest;
      assert cur + w == cur;
    } else {
      assert (w + " " + rest)[1..] == w[1..] + " " + rest;
      assert (w + " " + rest)[0] == w[0];
      assert cur + [w[0]] + w[1..] == cur + w;
      assert !IsSpace((cur + w)[|cur|]);
      FieldsFromWord(w[1..], rest, cur + [w[0]]);
    }
  }

  /** Joining fields with single spaces and splitting again gives the fields back. */
  lemma {:induction false} FieldsOfJoin(ws: seq<string>)
    requires |ws| >= 1
    requires forall i :: 0 <= i < |ws| ==> IsField(ws[i])
    ensures Fields(JoinWith(ws, ' ')) == ws
  {
    assert [] + ws[0] == ws[0];
    if |ws| == 1 {
      FieldsFromWord(ws[0], "", []);
    } else {
      assert [ws[0]] + ws[1..] == ws;
      FieldsOfJoin(ws[1..]);
      JoinWithCons(ws[0], ws[1..], ' ');
      FieldsFromWord(ws[0], JoinWith(ws[1..], ' '), []);
    }
  }

  predicate AllSpace(g: string) {
    forall i :: 0 <= i < |g| ==> IsSpace(g[i])
  }

  /** A run of whitespace ahead of the text produces no field. */
  lemma {:induction false} FieldsFromSpaces(g: string, rest: string)
    requires AllSpace(g)
    ensures FieldsFrom(g + rest, []) == FieldsFrom(rest, [])
    decreases |g|
  {
    if g == [] {
      assert g + rest == rest;
    } else {
      assert (g + rest)[0] == g[0];
      assert (g + rest)[1..] == g[1..] + rest;
      FieldsFromSpaces(g[1..], rest);
    }
  }

  /** A word ends at the first whitespace character after it. */
  lemma {:induction false} FieldsFromWordThen(w: string, s: string, cur: string)
    requires IsField(cur + w)
    requires s != [] && IsSpace(s[0])
    ensures FieldsFrom(w + s, cur) == [cur + w] + FieldsFrom(s, [])
    decreases |w|
  {
    if w == [] {
      assert w + s == s;
      assert cur + w == cur;
    } else {
      assert (w + s)[1..] == w[1..] + s;
      assert (w + s)[0] == w[0];
      assert cur + [w[0]] + w[1..] == cur + w;
      assert !IsSpace((cur + w)[|cur|]);
      FieldsFromWordThen(w[1..], s, cur + [w[0]]);
    }
  }

  /** `gaps[0] + ws[0] + gaps[1] + ... + ws[n-1] + gaps[n]`. */
  function Padded(ws: seq<string>, gaps: seq<string>): string
    requires |gaps| == |ws| + 1
    decreases |ws|
  {
    if ws == [] then gaps[0] else gaps[0] + ws[0] + Padded(ws[1..], gaps[1..])
  }

  /**
   Whitespace runs around words: one more run than words, a non-empty run
   between two words, and possibly empty runs at either end.
   */
  predicate GapsOk(ws: seq<string>, gaps: seq<string>) {
    |gaps| == |ws| + 1 &&
    (forall j :: 0 <= j < |gaps| ==> AllSpace(gaps[j])) &&
    (forall j :: 0 < j < |ws| ==> gaps[j] != [])
  }

  /**
   `split()` breaks at maximal whitespace runs: words padded with any
   whitespace runs, several characters long or empty at the ends, split
   back into exactly those words.
   */
  lemma {:induction false} FieldsOfPadded(ws: seq<string>, gaps: seq<string>)
    requires forall i :: 0 <= i < |ws| ==> IsField(ws[i])
    requires GapsOk(ws, gaps)
    ensures Fields(Padded(ws, gaps)) == ws
    decreases |ws|
  {
    if ws == [] {
      assert gaps[0] + [] == gaps[0];
      FieldsFromSpaces(gaps[0], []);
    } else {
      var t := Padded(ws[1..], gaps[1..]);
      assert Padded(ws, gaps) == gaps[0] + (ws[0] + t);
      FieldsFromSpaces(gaps[0], ws[0] + t);
      assert [] + ws[0] == ws[0];
      if |ws| == 1 && gaps[1] == [] {
        assert t == [] && ws[0] + t == ws[0];
        FieldsFromWord(ws[0], "", []);
      } else {
        assert gaps[1] != [];
        assert t[0] == gaps[1][0];
        assert GapsOk(ws[1..], gaps[1..]);
        FieldsOfPadded(ws[1..], gaps[1..]);
        FieldsFromWordThen(ws[0], t, []);
        assert [ws[0]] + ws[1..] == ws;
      }
    }
  }

  // ---------------------------------------------------------------------------
  // s.splitlines()
  // ---------------------------------------------------------------------------

  predicate BreakFree(l: string) {
    forall i :: 0 <= i < |l| ==> !IsLineBreak(l[i])
  }

  function LinesFrom(s: string, cur: string): seq<string>
    decreases |s|
  {
    if s == [] then (if cur == [] then [] else [cur])
    else if s[0] == '\n' then [cur] + LinesFrom(s[1..], [])
    else if s[0] == '\r' then
      if |s| > 1 && s[1] == '\n' then [cur] + LinesFrom(s[2..], [])
      else [cur] + LinesFrom(s[1..], [])
    else LinesFrom(s[1..], cur + [s[0]])
  }

  /**
   Python 2's `s.splitlines()`: no final empty line, `\r\n` is one break, and
   no line holds a line break.
   */
  function Lines(s: string): (lines: seq<string>)
    ensures forall i :: 0 <= i < |lines| ==> BreakFree(lines[i])
  {
    LinesFromBreakFree(s, []);
    LinesFrom(s, [])
  }

  lemma {:induction false} LinesFromBreakFree(s: string, cur: string)
    requires BreakFree(cur)
    ensures forall i :: 0 <= i < |LinesFrom(s, cur)| ==> BreakFree(LinesFrom(s, cur)[i])
    decreases |s|
  {
    if s == [] {
    } else if s[0] == '\n' {
      LinesFromBreakFree(s[1..], []);
    } else if s[0] == '\r' {
      if |s| > 1 && s[1] == '\n' {
        LinesFromBreakFree(s[2..], []);
      } else {
        LinesFromBreakFree(s[1..], []);
      }
    } else {
      LinesFromBreakFree(s[1..], cur + [s[0]]);
    }
  }

  lemma {:induction false} LinesFromLine(l: string, rest: string, cur: string)
    requires BreakFree(l)
    ensures LinesFrom(l + "\n" + rest, cur) == [cur + l] + LinesFrom(rest, [])
    ensures LinesFrom(l, cur) == if cur + l == [] then [] else [cur + l]
    decreases |l|
  {
    if l == [] {
      assert l + "\n" + rest == "\n" + rest;
      assert ("\n" + rest)[1..] == rest;
      assert cur + l == cur;
    } else {
      assert (l + "\n" + rest)[1..] == l[1..] + "\n" + rest;
      assert (l + "\n" + rest)[0] == l[0];
      LinesFromLine(l[1..], rest, cur + [l[0]]);
      assert cur + [l[0]] + l[1..] == cur + l;
    }
  }

  /**
   Joining break-free lines with `\n` and splitting again gives the lines back,
   provided there is no empty last line (`splitlines` drops a trailing break).
   */
  lemma {:induction false} LinesOfJoin(ls: seq<string>)
    requires |ls| >= 1 && ls[|ls| - 1] != []
    requires forall i :: 0 <= i < |ls| ==> BreakFree(ls[i])
    ensures Lines(JoinWith(ls, '\n')) == ls
  {
    if |ls| == 1 {
      LinesFromLine(ls[0], "", []);
    } else {
      assert [ls[0]] + ls[1..] == ls;
      LinesOfJoin(ls[1..]);
      JoinWithCons(ls[0], ls[1..], '\n');
      LinesFromLine(ls[0], JoinWith(ls[1..], '\n'), []);
      assert [] + ls[0] == ls[0];
    }
  }
}
