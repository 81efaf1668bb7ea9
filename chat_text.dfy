/** The text rules of the chat server: how a session tells a command line from
    chat, how a command line is parsed, and the fixed strings the server writes
    around a username.  Everything here is a pure function of its arguments. */
module ChatText {

  /** The reserved prefix of an in-band command line. */
  const CommandPrefix: string := "/command"

  /** The only recognised command word. */
  const ExitWord: string := "exit"

  /** Sent to every new connection before anything is read from it. */
  const Prompt: string := ">> SERVER: Hello! Please type a name for yourself."

  /** A received line is a command exactly when it starts with the prefix
      (Python's `str.startswith`). */
  predicate IsCommand(line: string)
  {
    CommandPrefix <= line
  }

  /** The chat line queued for text that is not a command. */
  function FormatChat(name: string, text: string): string
  {
    ">> " + name + ": " + text
  }

  /** Queued once the username has been received. */
  function Welcome(name: string): string
  {
    ">> Welcome, " + name + "!"
  }

  /** Queued when a session executes the exit command. */
  function Goodbye(name: string): string
  {
    ">> SERVER: Goodbye " + name + "!"
  }

  /** What `receive_message` returns for the chunk one `recv` produced: the
      chunk when it is non-empty, otherwise the empty string.  Either way the
      text is handed on unchanged; an empty chunk is not turned into an error. */
  function ReceiveMessage(data: string): (message: string)
    ensures message == data
  {
    if |data| > 0 then "" + data else ""
  }

  // ---------------------------------------------------------------------
  // Splitting on a separator (Python's `str.split(sep)` with an explicit sep)
  // ---------------------------------------------------------------------

  /** The number of occurrences of `c` in `s`. */
  function Count(s: string, c: char): nat
  {
    if s == [] then 0 else (if s[0] == c then 1 else 0) + Count(s[1..], c)
  }

  /** `s.split(sep)`: every occurrence of `sep` ends a field, so there is one
      field more than there are separators, and empty fields are kept
      (`"".split(' ') == ['']`, `"a  b".split(' ') == ['a', '', 'b']`). */
  function Split(s: string, sep: char): (fields: seq<string>)
    ensures |fields| == Count(s, sep) + 1
    ensures forall i :: 0 <= i < |fields| ==> sep !in fields[i]
  {
    if s == [] then [""]
    else if s[0] == sep then [""] + Split(s[1..], sep)
    else
      var rest := Split(s[1..], sep);
      [[s[0]] + rest[0]] + rest[1..]
  }

  /** `sep.join(fields)`, the inverse of `Split`. */
  function Join(fields: seq<string>, sep: char): string
    requires |fields| >= 1
  {
    if |fields| == 1 then fields[0] else fields[0] + [sep] + Join(fields[1..], sep)
  }

  /** Splitting loses nothing: joining the fields back gives the line. */
  lemma {:induction false} JoinSplit(s: string, sep: char)
    ensures Join(Split(s, sep), sep) == s
  {
    if s == [] {
    } else if s[0] == sep {
      JoinSplit(s[1..], sep);
      assert Split(s, sep)[1..] == Split(s[1..], sep);
    } else {
      JoinSplit(s[1..], sep);
      var rest := Split(s[1..], sep);
      var fields := Split(s, sep);
      assert fields[1..] == rest[1..];
      if |rest| == 1 {
        assert fields == [[s[0]] + rest[0]];
      } else {
        assert Join(rest, sep) == rest[0] + [sep] + Join(rest[1..], sep);
      }
    }
  }

  /** A line without the separator is a single field. */
  lemma {:induction false} SplitNoSep(a: string, sep: char)
    requires sep !in a
    ensures Split(a, sep) == [a]
  {
    if a != [] {
      SplitNoSep(a[1..], sep);
      assert [a[0]] + a[1..] == a;
    }
  }

  /** A separator after a separator-free head ends the first field there. */
  lemma {:induction false} SplitAtSep(a: string, sep: char, b: string)
    requires sep !in a
    ensures Split(a + [sep] + b, sep) == [a] + Split(b, sep)
  {
    if a == [] {
      assert a + [sep] + b == [sep] + b;
      assert ([sep] + b)[1..] == b;
    } else {
      var s := a + [sep] + b;
      assert s[1..] == a[1..] + [sep] + b;
      SplitAtSep(a[1..], sep, b);
      assert [a[0]] + a[1..] == a;
    }
  }

  /** Splitting undoes joining fields that contain no separator. */
  lemma {:induction false} SplitJoin(fields: seq<string>, sep: char)
    requires |fields| >= 1
    requires forall i :: 0 <= i < |fields| ==> sep !in fields[i]
    ensures Split(Join(fields, sep), sep) == fields
  {
    if |fields| == 1 {
      SplitNoSep(fields[0], sep);
    } else {
      SplitJoin(fields[1..], sep);
      SplitAtSep(fields[0], sep, Join(fields[1..], sep));
      assert [fields[0]] + fields[1..] == fields;
    }
  }

  // ---------------------------------------------------------------------
  // Stripping whitespace (Python 2's `str.strip()` with no argument)
  // ---------------------------------------------------------------------

  /** The bytes Python 2's `str.isspace` accepts: space, tab, newline,
      vertical tab, form feed and carriage return. */
  predicate IsSpace(c: char)
  {
    c == ' ' || c == '\t' || c == '\n' || c == '\U{000B}' || c == '\U{000C}' || c == '\r'
  }

  predicate AllSpace(s: string)
  {
    forall i :: 0 <= i < |s| ==> IsSpace(s[i])
  }

  /** A string is stripped when it neither starts nor ends with whitespace. */
  predicate IsStripped(s: string)
  {
    s == [] || (!IsSpace(s[0]) && !IsSpace(s[|s| - 1]))
  }

  /** Drops the leading whitespace. */
  function StripLeft(s: string): (r: string)
    ensures |r| <= |s| && r == s[|s| - |r|..]
    ensures AllSpace(s[..|s| - |r|])
    ensures r == [] || !IsSpace(r[0])
  {
    if s != [] && IsSpace(s[0]) then StripLeft(s[1..]) else s
  }

  /** Drops the trailing whitespace. */
  function StripRight(s: string): (r: string)
    ensures |r| <= |s| && r == s[..|r|]
    ensures AllSpace(s[|r|..])
    ensures r == [] || !IsSpace(r[|r| - 1])
  {
    if s != [] && IsSpace(s[|s| - 1]) then StripRight(s[..|s| - 1]) else s
  }

  /** `s.strip()`: the line with its leading and trailing whitespace removed. */
  function Strip(s: string): string
  {
    StripRight(StripLeft(s))
  }

  /** What `Strip` returns: a stripped middle part of the line, with only
      whitespace cut off before and after it. */
  lemma StripShape(s: string)
    ensures IsStripped(Strip(s))
    ensures exists lo, hi :: 0 <= lo <= hi <= |s| && Strip(s) == s[lo..hi]
                             && AllSpace(s[..lo]) && AllSpace(s[hi..])
  {
    var l := StripLeft(s);
    SliceShape(s, l, StripRight(l));
  }

  /** The sequence reasoning behind `StripShape`: cutting whitespace off the
      front and then off the back leaves a stripped slice. */
  lemma SliceShape(s: string, l: string, r: string)
    requires |l| <= |s| && l == s[|s| - |l|..] && AllSpace(s[..|s| - |l|])
    requires l == [] || !IsSpace(l[0])
    requires |r| <= |l| && r == l[..|r|] && AllSpace(l[|r|..])
    requires r == [] || !IsSpace(r[|r| - 1])
    ensures IsStripped(r)
    ensures exists lo, hi :: 0 <= lo <= hi <= |s| && r == s[lo..hi]
                             && AllSpace(s[..lo]) && AllSpace(s[hi..])
  {
    var lo := |s| - |l|;
    var hi := lo + |r|;
    assert r == s[lo..hi] && l[|r|..] == s[hi..];
    if r != [] {
      assert l[0] == r[0];
    }
    assert 0 <= lo <= hi <= |s| && r == s[lo..hi] && AllSpace(s[..lo]) && AllSpace(s[hi..]);
  }

  lemma {:induction false} StripLeftExact(p: string, t: string)
    requires AllSpace(p)
    requires t == [] || !IsSpace(t[0])
    ensures StripLeft(p + t) == t
  {
    if p != [] {
      assert (p + t)[1..] == p[1..] + t;
      StripLeftExact(p[1..], t);
    }
  }

  lemma {:induction false} StripRightExact(t: string, q: string)
    requires AllSpace(q)
    requires t == [] || !IsSpace(t[|t| - 1])
    ensures StripRight(t + q) == t
  {
    if q != [] {
      assert (t + q)[..|t + q| - 1] == t + q[..|q| - 1];
      StripRightExact(t, q[..|q| - 1]);
    }
  }

  /** The converse of `StripShape`: whatever whitespace surrounds a stripped
      text, `Strip` returns exactly that text. */
  lemma StripExact(p: string, t: string, q: string)
    requires AllSpace(p) && AllSpace(q) && IsStripped(t)
    ensures Strip(p + t + q) == t
  {
    if t == [] {
      assert p + t + q == p + q;
      if q == [] {
        assert p + q == p + [];
        StripLeftExact(p, []);
      } else {
        assert !IsSpace(q[0]) ==> false;
        assert AllSpace(p + q);
        StripLeftAllSpace(p + q);
      }
    } else {
      assert p + t + q == p + (t + q);
      StripLeftExact(p, t + q);
      StripRightExact(t, q);
    }
  }

  lemma {:induction false} StripLeftAllSpace(s: string)
    requires AllSpace(s)
    ensures StripLeft(s) == []
  {
    if s != [] {
      StripLeftAllSpace(s[1..]);
    }
  }

  /** Stripping twice is stripping once. */
  lemma StripIdempotent(s: string)
    ensures Strip(Strip(s)) == Strip(s)
  {
    StripShape(s);
    var t := Strip(s);
    assert t == [] + t + [];
    StripExact([], t, []);
  }

  // ---------------------------------------------------------------------
  // The exit command
  // ---------------------------------------------------------------------

  /** `execute_command` acts only when splitting the line on single spaces
      gives exactly two fields and the second, stripped, is `exit`.  The
      first field is not looked at. */
  predicate IsExit(line: string)
  {
    var fields := Split(line, ' ');
    |fields| == 2 && Strip(fields[1]) == ExitWord
  }

  /** An exit line holds exactly one space. */
  lemma ExitHasOneSpace(line: string)
    ensures IsExit(line) ==> Count(line, ' ') == 1
  {
  }

  /** For a line made of a space-free head, one space and a tail: it is an
      exit line exactly when the tail has no space and strips to `exit`. */
  lemma ExitIff(head: string, tail: string)
    requires ' ' !in head
    ensures IsExit(head + " " + tail) <==> (' ' !in tail && Strip(tail) == ExitWord)
  {
    SplitAtSep(head, ' ', tail);
    if ' ' !in tail {
      SplitNoSep(tail, ' ');
    } else {
      assert Count(tail, ' ') >= 1 by { CountPositive(tail, ' '); }
    }
  }

  lemma {:induction false} CountPositive(s: string, c: char)
    requires c in s
    ensures Count(s, c) >= 1
  {
    if s[0] != c {
      CountPositive(s[1..], c);
    }
  }

  /** The examples below show the exit rule on concrete lines. */

  lemma ExitPlain()
    ensures IsExit(CommandPrefix + " " + ExitWord)
  {
    ExitAnyHead(CommandPrefix);
  }

  /** The newline a terminal leaves on the line is stripped away. */
  lemma ExitWithNewline()
    ensures IsExit(CommandPrefix + " " + ExitWord + "\n")
  {
    assert AllSpace("\n");
    ExitPadded(CommandPrefix, "\n");
  }

  /** The first field is not checked: any head without a space will do. */
  lemma ExitAnyHead(head: string)
    requires ' ' !in head
    ensures IsExit(head + " " + ExitWord)
  {
    ExitPadded(head, []);
    assert head + " " + ExitWord + [] == head + " " + ExitWord;
  }

  /** Trailing whitespace other than a space is stripped from the second
      field, whatever the head. */
  lemma ExitPadded(head: string, q: string)
    requires ' ' !in head && ' ' !in q && AllSpace(q)
    ensures IsExit(head + " " + ExitWord + q)
  {
    StripExact([], ExitWord, q);
    assert [] + ExitWord + q == ExitWord + q;
    ExitIff(head, ExitWord + q);
    assert head + " " + (ExitWord + q) == head + " " + ExitWord + q;
  }

  /** Two spaces give three fields, so the line is ignored. */
  lemma DoubleSpaceIsNoExit()
    ensures !IsExit(CommandPrefix + "  " + ExitWord)
  {
    ExitIff(CommandPrefix, " " + ExitWord);
    assert CommandPrefix + " " + (" " + ExitWord) == CommandPrefix + "  " + ExitWord;
  }

  /** An extra word gives three fields, so the line is ignored. */
  lemma ExtraWordIsNoExit()
    ensures !IsExit(CommandPrefix + " " + ExitWord + " now")
  {
    ExitIff(CommandPrefix, ExitWord + " now");
    assert CommandPrefix + " " + (ExitWord + " now") == CommandPrefix + " " + ExitWord + " now";
  }

  /** A bare prefix is a single field, so it is ignored. */
  lemma BarePrefixIsNoExit()
    ensures !IsExit(CommandPrefix)
  {
    SplitNoSep(CommandPrefix, ' ');
  }

  // ---------------------------------------------------------------------
  // Chat formatting
  // ---------------------------------------------------------------------

  /** Under one username, distinct texts give distinct chat lines, so a
      listener can always recover what was said. */
  lemma FormatChatInjective(name: string, t1: string, t2: string)
    ensures FormatChat(name, t1) == FormatChat(name, t2) <==> t1 == t2
  {
    var head := ">> " + name + ": ";
    assert FormatChat(name, t1) == head + t1;
    assert FormatChat(name, t2) == head + t2;
    if head + t1 == head + t2 {
      assert t1 == (head + t1)[|head|..];
      assert t2 == (head + t2)[|head|..];
    }
  }
}
