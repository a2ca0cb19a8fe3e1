/**
 * Line handling used by the renderer: splitting a label on "\n" the way
 * strings.Split does, joining the pieces back, and the text a sequence of
 * output lines becomes when each is written followed by "\n".
 */
module Lines {

  predicate NoNewline(s: string) { '\n' !in s }

  /** strings.Split(s, "\n"): the pieces between line breaks. There is always
      at least one piece (the empty string splits into [""]), and one more
      piece than there are line breaks. */
  function Split(s: string): (r: seq<string>)
    ensures |r| >= 1
    ensures forall k :: 0 <= k < |r| ==> NoNewline(r[k])
    ensures |r| == NewlineCount(s) + 1
  {
    if s == [] then [[]]
    else
      var rest := Split(s[1..]);
      if s[0] == '\n' then [[]] + rest else [[s[0]] + rest[0]] + rest[1..]
  }

  function NewlineCount(s: string): nat
  {
    if s == [] then 0 else (if s[0] == '\n' then 1 else 0) + NewlineCount(s[1..])
  }

  /** strings.Join(pieces, "\n") */
  function Join(pieces: seq<string>): string
    requires |pieces| >= 1
  {
    if |pieces| == 1 then pieces[0] else pieces[0] + "\n" + Join(pieces[1..])
  }

  /** Joining the pieces of a split restores the string. */
  lemma {:induction false} JoinSplit(s: string)
    ensures Join(Split(s)) == s
  {
    if s != [] {
      var rest := Split(s[1..]);
      JoinSplit(s[1..]);
      if s[0] == '\n' {
        assert Split(s) == [[]] + rest;
        assert Split(s)[1..] == rest;
      } else {
        var r := Split(s);
        assert r == [[s[0]] + rest[0]] + rest[1..];
        if |rest| == 1 {
          assert Join(r) == [s[0]] + rest[0];
        } else {
          assert r[1..] == rest[1..];
          assert Join(rest) == rest[0] + "\n" + Join(rest[1..]);
        }
      }
      assert s == [s[0]] + s[1..];
    }
  }

  /** A line without a break splits into itself alone. */
  lemma {:induction false} SplitLine(a: string)
    requires NoNewline(a)
    ensures Split(a) == [a]
  {
    if a != [] {
      SplitLine(a[1..]);
      assert a == [a[0]] + a[1..];
    }
  }

  /** A line followed by a break splits off as the first piece. */
  lemma {:induction false} SplitAfterLine(a: string, b: string)
    requires NoNewline(a)
    ensures Split(a + "\n" + b) == [a] + Split(b)
  {
    if a == [] {
      assert a + "\n" + b == "\n" + b;
      assert ("\n" + b)[1..] == b;
    } else {
      SplitAfterLine(a[1..], b);
      var s := a + "\n" + b;
      assert s[0] == a[0] && s[0] != '\n';
      assert s[1..] == a[1..] + "\n" + b;
      assert a == [a[0]] + a[1..];
    }
  }

  /** Splitting a join of break-free pieces gives the pieces back: together
      with JoinSplit, Split is a bijection onto non-empty piece lists. */
  lemma {:induction false} SplitJoin(pieces: seq<string>)
    requires |pieces| >= 1
    requires forall k :: 0 <= k < |pieces| ==> NoNewline(pieces[k])
    ensures Split(Join(pieces)) == pieces
  {
    if |pieces| == 1 {
      SplitLine(pieces[0]);
    } else {
      SplitJoin(pieces[1..]);
      SplitAfterLine(pieces[0], Join(pieces[1..]));
      assert pieces == [pieces[0]] + pieces[1..];
    }
  }

  /** The text of output lines: every line written followed by "\n". */
  function Text(lines: seq<string>): string
  {
    if lines == [] then "" else lines[0] + "\n" + Text(lines[1..])
  }

  lemma {:induction false} TextAppend(a: seq<string>, b: seq<string>)
    ensures Text(a + b) == Text(a) + Text(b)
  {
    if a != [] {
      TextAppend(a[1..], b);
      assert (a + b)[0] == a[0] && (a + b)[1..] == a[1..] + b;
      calc {
        Text(a + b);
        a[0] + "\n" + Text(a[1..] + b);
        a[0] + "\n" + (Text(a[1..]) + Text(b));
        (a[0] + "\n" + Text(a[1..])) + Text(b);
      }
    } else {
      assert a + b == b;
    }
  }

  /** The text of break-free lines has one line break per line. */
  lemma {:induction false} TextNewlines(lines: seq<string>)
    requires forall k :: 0 <= k < |lines| ==> NoNewline(lines[k])
    ensures NewlineCount(Text(lines)) == |lines|
  {
    if lines != [] {
      TextNewlines(lines[1..]);
      NewlineCountAppend(lines[0] + "\n", Text(lines[1..]));
      NewlineCountAppend(lines[0], "\n");
      NoNewlineCount(lines[0]);
    }
  }

  lemma {:induction false} NewlineCountAppend(a: string, b: string)
    ensures NewlineCount(a + b) == NewlineCount(a) + NewlineCount(b)
  {
    if a != [] {
      NewlineCountAppend(a[1..], b);
      assert (a + b)[0] == a[0] && (a + b)[1..] == a[1..] + b;
    } else {
      assert a + b == b;
    }
  }

  lemma {:induction false} NoNewlineCount(a: string)
    requires NoNewline(a)
    ensures NewlineCount(a) == 0
  {
    if a != [] {
      NoNewlineCount(a[1..]);
    }
  }
}
