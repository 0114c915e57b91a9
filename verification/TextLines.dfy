// The lines of a text buffer that is cut to its last thousand lines whenever
// text was appended to it.
module TextLines {

  const NB_LINES_IN_SCROLL := 1000

  // The line ends of a text.
  function Newlines(s: string): nat {
    if s == "" then 0 else (if s[0] == '\n' then 1 else 0) + Newlines(s[1..])
  }

  // gtk_text_buffer_get_line_count: the line after the last line end counts.
  function LineCount(s: string): nat {
    Newlines(s) + 1
  }

  // The text from its k-th line on.
  function FromLine(s: string, k: nat): string {
    if k == 0 || s == "" then s
    else FromLine(s[1..], if s[0] == '\n' then k - 1 else k)
  }

  // The text cut to its last thousand lines.
  function Trimmed(s: string): string {
    if LineCount(s) > NB_LINES_IN_SCROLL then FromLine(s, LineCount(s) - NB_LINES_IN_SCROLL) else s
  }

  lemma {:induction false} NewlinesPlus(a: string, b: string)
    ensures Newlines(a + b) == Newlines(a) + Newlines(b)
  {
    if a == "" {
      assert a + b == b;
    } else {
      assert (a + b)[1..] == a[1..] + b;
      NewlinesPlus(a[1..], b);
    }
  }

  lemma {:induction false} NewlinesFrom(s: string, k: nat)
    requires k <= Newlines(s)
    ensures Newlines(FromLine(s, k)) == Newlines(s) - k
  {
    if k > 0 {
      NewlinesFrom(s[1..], if s[0] == '\n' then k - 1 else k);
    }
  }

  lemma {:induction false} FromLinePlus(a: string, b: string, k: nat)
    requires k <= Newlines(a)
    ensures FromLine(a + b, k) == FromLine(a, k) + b
  {
    if k > 0 {
      assert (a + b)[1..] == a[1..] + b;
      FromLinePlus(a[1..], b, if a[0] == '\n' then k - 1 else k);
    }
  }

  lemma {:induction false} FromLineTwice(s: string, j: nat, k: nat)
    requires j + k <= Newlines(s)
    ensures FromLine(FromLine(s, j), k) == FromLine(s, j + k)
  {
    if j > 0 {
      FromLineTwice(s[1..], if s[0] == '\n' then j - 1 else j, k);
    }
  }

  // Cutting after every text appended is cutting once at the end.
  lemma TrimOnce(s: string, t: string)
    ensures Trimmed(Trimmed(s) + t) == Trimmed(s + t)
  {
    NewlinesPlus(s, t);
    if LineCount(s) > NB_LINES_IN_SCROLL {
      var j := LineCount(s) - NB_LINES_IN_SCROLL;
      NewlinesFrom(s, j);
      NewlinesPlus(FromLine(s, j), t);
      FromLinePlus(s, t, j);
      FromLineTwice(s + t, j, Newlines(t));
    }
  }

  // Nothing is cut exactly when the text has less than a thousand line ends.
  lemma TrimmedWhole(s: string)
    ensures Trimmed(s) == s <==> Newlines(s) < 1000
  {
    if Newlines(s) >= NB_LINES_IN_SCROLL {
      NewlinesFrom(s, LineCount(s) - NB_LINES_IN_SCROLL);
    }
  }

  // What is left is the end of the text behind one of its line ends, with the
  // last 999 of them.
  lemma TrimmedEnd(s: string) returns (k: nat)
    ensures k <= |s| && Trimmed(s) == s[k..] && (k == 0 || s[k - 1] == '\n')
    ensures Newlines(Trimmed(s)) == if Newlines(s) < 1000 then Newlines(s) else 999
  {
    k := 0;
    if LineCount(s) > NB_LINES_IN_SCROLL {
      k := FromLineEnd(s, LineCount(s) - NB_LINES_IN_SCROLL);
      NewlinesFrom(s, LineCount(s) - NB_LINES_IN_SCROLL);
    }
  }

  lemma {:induction false} FromLineEnd(s: string, n: nat) returns (k: nat)
    requires n <= Newlines(s)
    ensures k <= |s| && FromLine(s, n) == s[k..] && (k == 0 || s[k - 1] == '\n') && (n > 0 ==> k > 0)
  {
    k := 0;
    if n > 0 {
      var rest := FromLineEnd(s[1..], if s[0] == '\n' then n - 1 else n);
      k := rest + 1;
      assert s[1..][rest..] == s[k..];
    }
  }

  function Concat(lines: seq<string>): string {
    if lines == [] then "" else lines[0] + Concat(lines[1..])
  }

  lemma {:induction false} ConcatSnoc(lines: seq<string>, line: string)
    ensures Concat(lines + [line]) == Concat(lines) + line
  {
    if lines == [] {
      assert lines + [line] == [line];
      assert Concat([line]) == line + Concat([]);
    } else {
      assert (lines + [line])[1..] == lines[1..] + [line];
      ConcatSnoc(lines[1..], line);
    }
  }

  // A line that ends once, at its end.
  predicate EndsOnce(line: string) {
    line != "" && line[|line| - 1] == '\n' && Newlines(line) == 1
  }

  ghost predicate AllEndOnce(lines: seq<string>) {
    forall i :: 0 <= i < |lines| ==> EndsOnce(lines[i])
  }

  lemma {:induction false} NewlinesOfLines(lines: seq<string>)
    requires AllEndOnce(lines)
    ensures Newlines(Concat(lines)) == |lines|
  {
    if lines != [] {
      assert EndsOnce(lines[0]);
      NewlinesPlus(lines[0], Concat(lines[1..]));
      NewlinesOfLines(lines[1..]);
    }
  }

  lemma {:induction false} NoNewlines(s: string)
    requires '\n' !in s
    ensures Newlines(s) == 0
  {
    if s != "" {
      NoNewlines(s[1..]);
    }
  }

  // The only line end of such a line is its last character.
  lemma {:induction false} PastLine(line: string)
    requires EndsOnce(line)
    ensures FromLine(line, 1) == ""
  {
    if line[0] == '\n' {
      if |line| > 1 {
        LastNewline(line[1..]);
      }
    } else {
      PastLine(line[1..]);
    }
  }

  lemma {:induction false} LastNewline(s: string)
    requires s != "" && s[|s| - 1] == '\n'
    ensures Newlines(s) > 0
  {
    if |s| > 1 {
      LastNewline(s[1..]);
    }
  }

  lemma {:induction false} FromLineOfLines(lines: seq<string>, k: nat)
    requires AllEndOnce(lines) && k <= |lines|
    ensures FromLine(Concat(lines), k) == Concat(lines[k..])
  {
    if k == 0 {
      assert lines[k..] == lines;
    } else {
      var rest := Concat(lines[1..]);
      NewlinesOfLines(lines);
      NewlinesPlus(lines[0], rest);
      assert EndsOnce(lines[0]);
      FromLineTwice(lines[0] + rest, 1, k - 1);
      FromLinePlus(lines[0], rest, 1);
      PastLine(lines[0]);
      assert "" + rest == rest;
      FromLineOfLines(lines[1..], k - 1);
      assert lines[1..][k - 1..] == lines[k..];
    }
  }

  // Of lines that end once, the last 999 are shown: the empty line behind the
  // last line end is the thousandth.
  lemma TrimmedLines(lines: seq<string>)
    requires AllEndOnce(lines)
    ensures Trimmed(Concat(lines)) ==
            Concat(if |lines| < 1000 then lines else lines[|lines| - 999..])
  {
    NewlinesOfLines(lines);
    if |lines| >= NB_LINES_IN_SCROLL {
      FromLineOfLines(lines, |lines| + 1 - NB_LINES_IN_SCROLL);
    }
  }
}
