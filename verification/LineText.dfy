/** Go's `strings.Split(text, "\n")` and `strings.Join(lines, "\n")`, which undo each other. */
module LineText {

  predicate NoNewline(s: string) {
    '\n' !in s
  }

  /** The pieces between newlines; never empty. */
  function Split(s: string): (lines: seq<string>)
    ensures |lines| > 0
  {
    if s == "" then [""]
    else if s[0] == '\n' then [""] + Split(s[1..])
    else
      var rest := Split(s[1..]);
      [[s[0]] + rest[0]] + rest[1..]
  }

  function Join(lines: seq<string>): string {
    if lines == [] then ""
    else if |lines| == 1 then lines[0]
    else lines[0] + "\n" + Join(lines[1..])
  }

  lemma {:induction false} JoinSplit(s: string)
    ensures Join(Split(s)) == s
  {
    if s != "" {
      var rest := Split(s[1..]);
      JoinSplit(s[1..]);
      if s[0] == '\n' {
        assert ([""] + rest)[1..] == rest;
        assert s == "" + "\n" + s[1..];
      } else {
        assert ([[s[0]] + rest[0]] + rest[1..])[1..] == rest[1..];
        assert s == [s[0]] + s[1..];
        JoinFirst([s[0]], rest);
      }
    }
  }

  lemma {:induction false} JoinFirst(p: string, lines: seq<string>)
    requires lines != []
    ensures Join([p + lines[0]] + lines[1..]) == p + Join(lines)
  {
    var l, rest := lines[0], lines[1..];
    assert ([p + l] + rest)[1..] == rest;
    if rest != [] {
      var j := Join(rest);
      assert (p + l) + "\n" + j == p + (l + "\n" + j);
    }
  }

  /** A line without newlines, followed by a newline, splits off. */
  lemma {:induction false} SplitLine(line: string, rest: string)
    requires NoNewline(line)
    ensures Split(line + "\n" + rest) == [line] + Split(rest)
  {
    var s := line + "\n" + rest;
    if line == "" {
      assert s[1..] == rest;
    } else {
      assert s[1..] == line[1..] + "\n" + rest;
      SplitLine(line[1..], rest);
      assert [line[0]] + line[1..] == line;
      assert ([line[1..]] + Split(rest))[1..] == Split(rest);
    }
  }

  lemma {:induction false} SplitWhole(line: string)
    requires NoNewline(line)
    ensures Split(line) == [line]
  {
    if line != "" {
      SplitWhole(line[1..]);
      assert [line[0]] + line[1..] == line;
    }
  }

  lemma {:induction false} SplitJoin(lines: seq<string>)
    requires lines != []
    requires forall i :: 0 <= i < |lines| ==> NoNewline(lines[i])
    ensures Split(Join(lines)) == lines
  {
    if |lines| == 1 {
      SplitWhole(lines[0]);
    } else {
      SplitLine(lines[0], Join(lines[1..]));
      SplitJoin(lines[1..]);
    }
  }

  lemma {:induction false} SplitHasNoNewline(s: string)
    ensures forall i :: 0 <= i < |Split(s)| ==> NoNewline(Split(s)[i])
  {
    if s != "" {
      SplitHasNoNewline(s[1..]);
      var rest := Split(s[1..]);
      if s[0] != '\n' {
        assert forall i :: 1 <= i < |rest| ==> Split(s)[i] == rest[i];
      } else {
        assert forall i :: 1 <= i < |Split(s)| ==> Split(s)[i] == rest[i - 1];
      }
    }
  }

  /** The last line is empty. */
  predicate EndsBlank(lines: seq<string>) {
    |lines| > 0 && lines[|lines| - 1] == ""
  }

  /** A final newline adds one empty piece. */
  lemma {:induction false} SplitSnoc(s: string)
    ensures Split(s + "\n") == Split(s) + [""]
  {
    if s == "" {
      assert s + "\n" == "\n" && "\n"[1..] == "";
    } else {
      assert (s + "\n")[1..] == s[1..] + "\n";
      SplitSnoc(s[1..]);
      var rest := Split(s[1..]);
      assert (rest + [""])[1..] == rest[1..] + [""];
    }
  }

  lemma {:induction false} SplitEndsBlank(s: string)
    ensures EndsBlank(Split(s)) <==> s == "" || s[|s| - 1] == '\n'
  {
    if |s| > 0 {
      SplitEndsBlank(s[1..]);
      var rest := Split(s[1..]);
      if s[0] != '\n' {
        assert |rest| > 1 ==> Split(s)[|rest| - 1] == rest[|rest| - 1];
      }
    }
  }
}
