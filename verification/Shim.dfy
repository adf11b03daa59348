/** The recording shim: what its script hands to the shell, how the shell reads it, and what the
    shim recovers from the words. */
module Shim {
  import opened Text

  // ---------------------------------------------------------------- the printer

  /** strings.ReplaceAll of each single quote: close the quotes, an escaped quote, open them again. */
  function Escape(text: string): string {
    if text == "" then "" else (if text[0] == '\'' then "'\\''" else [text[0]]) + Escape(text[1..])
  }

  function ShellQuote(text: string): string {
    "'" + (Escape(text) + "'")
  }

  /** The command line of the script. */
  function ScriptLine(self: string, real_: string, out: string): string {
    "exec " + (ShellQuote(self)
               + (" __shim --real " + (ShellQuote(real_) + (" --log " + (ShellQuote(out) + " -- \"$@\"\n")))))
  }

  // ---------------------------------------------------------------- the reader

  predicate IsBlank(c: char) {
    c == ' ' || c == '\t'
  }

  /** Characters that stand for themselves wherever they are in a word. */
  predicate IsOrdinary(c: char) {
    'a' <= c <= 'z' || 'A' <= c <= 'Z' || '0' <= c <= '9' || c in "_-./:,+@%"
  }

  datatype State = Between | InWord(word: string) | InQuotes(word: string)

  function Cons(w: string, more: Option<seq<string>>): Option<seq<string>> {
    if more.Some? then Some([w] + more.value) else None
  }

  function Prepend(ws: seq<string>, more: Option<seq<string>>): Option<seq<string>> {
    if more.Some? then Some(ws + more.value) else None
  }

  const ALL_ARGUMENTS: string := "\"$@\""

  /** The words of one simple command, read as sections 2.2 and 2.3 of the Shell Command Language
      in POSIX.1-2017 say: single quotes keep every character up to the next one (2.2.2), a
      backslash keeps the character after it (2.2.1), and the double-quoted $@ standing alone is
      the positional parameters, one word each (2.5.2). None where quotes stay open, or where the
      text uses a part of the language this reader leaves out. */
  function Read(s: string, st: State, args: seq<string>): Option<seq<string>>
    decreases |s|
  {
    if s == "" then
      match st
      case Between => Some([])
      case InWord(w) => Some([w])
      case InQuotes(_) => None
    else if st.InQuotes? then
      Read(s[1..], if s[0] == '\'' then InWord(st.word) else InQuotes(st.word + [s[0]]), args)
    else
      var word := if st.InWord? then st.word else "";
      if s[0] == '\n' then Some(if st.InWord? then [word] else [])
      else if IsBlank(s[0]) then
        var more := Read(s[1..], Between, args);
        if st.InWord? then Cons(word, more) else more
      else if s[0] == '\'' then Read(s[1..], InQuotes(word), args)
      else if s[0] == '\\' then
        if |s| < 2 then None
        else if s[1] == '\n' then Read(s[2..], st, args)
        else Read(s[2..], InWord(word + [s[1]]), args)
      else if IsOrdinary(s[0]) then Read(s[1..], InWord(word + [s[0]]), args)
      else if st.Between? && HasPrefix(s, ALL_ARGUMENTS) && (|s| == 4 || IsBlank(s[4]) || s[4] == '\n') then
        Prepend(args, Read(s[4..], Between, args))
      else None
  }

  /** The words the shell makes of a line, with its positional parameters. */
  function Words(line: string, args: seq<string>): Option<seq<string>> {
    Read(line, Between, args)
  }

  // ---------------------------------------------------------------- the reader undoes the printer

  lemma Step(c: char, a: string, k: string)
    ensures ([c] + a) + k == [c] + (a + k) && ([c] + (a + k))[1..] == a + k
  {
  }

  /** Inside the quotes, the escaped text is read back as the text. */
  lemma {:induction false} EscapedReads(text: string, w: string, k: string, args: seq<string>)
    ensures Read(Escape(text) + ("'" + k), InQuotes(w), args) == Read(k, InWord(w + text), args)
    decreases |text|
  {
    if text == "" {
      assert Escape(text) + ("'" + k) == "'" + k && ("'" + k)[1..] == k;
      assert w + text == w;
    } else {
      var c, rest := text[0], Escape(text[1..]) + ("'" + k);
      EscapedReads(text[1..], w + [c], k, args);
      assert w + [c] + text[1..] == w + text;
      if c == '\'' {
        assert Escape(text) + ("'" + k) == "'\\''" + rest;
        ReadsEscapedQuote(w, rest, args);
      } else {
        assert Escape(text) + ("'" + k) == [c] + rest && ([c] + rest)[1..] == rest;
      }
    }
  }

  lemma ReadsEscapedQuote(w: string, rest: string, args: seq<string>)
    ensures Read("'\\''" + rest, InQuotes(w), args) == Read(rest, InQuotes(w + "'"), args)
  {
    var s := "'\\''" + rest;
    assert s[1..] == "\\''" + rest;
    assert s[1..][2..] == "'" + rest;
    assert ("'" + rest)[1..] == rest;
    assert Read("'" + rest, InWord(w + "'"), args) == Read(rest, InQuotes(w + "'"), args);
    assert Read(s[1..], InWord(w), args) == Read("'" + rest, InWord(w + "'"), args);
  }

  /** A quoted text joins the word in hand and leaves the rest unread. */
  lemma QuotedReads(text: string, k: string, args: seq<string>)
    ensures Read(ShellQuote(text) + k, Between, args) == Read(k, InWord(text), args)
  {
    var inner := Escape(text) + ("'" + k);
    assert ShellQuote(text) + k == "'" + inner && ("'" + inner)[1..] == inner;
    EscapedReads(text, "", k, args);
    assert "" + text == text;
  }

  /** The shell reads a quoted text as exactly one word, the text itself, whatever it holds. */
  lemma QuoteIsOneWord(text: string, args: seq<string>)
    ensures Words(ShellQuote(text), args) == Some([text])
  {
    QuotedReads(text, "", args);
    assert ShellQuote(text) + "" == ShellQuote(text);
  }

  predicate Bare(w: string) {
    w != "" && forall i :: 0 <= i < |w| ==> IsOrdinary(w[i])
  }

  lemma {:induction false} BareReads(w: string, sofar: string, k: string, args: seq<string>)
    requires forall i :: 0 <= i < |w| ==> IsOrdinary(w[i])
    ensures Read(w + k, InWord(sofar), args) == Read(k, InWord(sofar + w), args)
    decreases |w|
  {
    if w == "" {
      assert w + k == k && sofar + w == sofar;
    } else {
      assert (w + k)[1..] == w[1..] + k;
      assert sofar + w == sofar + [w[0]] + w[1..];
      BareReads(w[1..], sofar + [w[0]], k, args);
    }
  }

  lemma BareStarts(w: string, t: string, args: seq<string>)
    requires Bare(w)
    ensures Read(w + t, Between, args) == Read(w[1..] + t, InWord([w[0]]), args)
  {
    assert (w + t)[1..] == w[1..] + t && (w + t)[0] == w[0];
    assert "" + [w[0]] == [w[0]];
  }

  /** A bare word followed by a space. */
  lemma BareWord(w: string, k: string, args: seq<string>)
    requires Bare(w)
    ensures Read(w + (" " + k), Between, args) == Cons(w, Read(k, Between, args))
  {
    BareStarts(w, " " + k, args);
    BareReads(w[1..], [w[0]], " " + k, args);
    assert [w[0]] + w[1..] == w;
    assert (" " + k)[1..] == k;
  }

  lemma QuotedWord(text: string, k: string, args: seq<string>)
    ensures Read(ShellQuote(text) + (" " + k), Between, args) == Cons(text, Read(k, Between, args))
  {
    QuotedReads(text, " " + k, args);
    assert (" " + k)[1..] == k;
  }

  lemma AllArgumentsRead(args: seq<string>)
    ensures Read("\"$@\"\n", Between, args) == Some(args)
  {
    var s := "\"$@\"\n";
    assert s[4..] == "\n";
    assert args + [] == args;
  }

  lemma ScriptPieces(self: string, real_: string, out: string)
    ensures ScriptLine(self, real_, out)
            == "exec" + (" " + (ShellQuote(self) + (" " + ("__shim" + (" "
               + ("--real" + (" " + (ShellQuote(real_) + (" "
               + ("--log" + (" " + (ShellQuote(out) + (" " + ("--" + (" " + "\"$@\"\n")))))))))))))))
  {
    var t5 := " -- \"$@\"\n";
    assert t5 == " " + ("--" + (" " + "\"$@\"\n"));
    var t4 := ShellQuote(out) + t5;
    assert " --log " + t4 == " " + ("--log" + (" " + t4));
    var t3 := ShellQuote(real_) + (" --log " + t4);
    assert " __shim --real " + t3 == " " + ("__shim" + (" " + ("--real" + (" " + t3))));
    var t2 := ShellQuote(self) + (" __shim --real " + t3);
    assert "exec " + t2 == "exec" + (" " + t2);
  }

  /** The shell hands exec the program, the shim's own arguments, and then the user's. */
  lemma ScriptReads(self: string, real_: string, out: string, args: seq<string>)
    ensures Words(ScriptLine(self, real_, out), args)
            == Some(["exec", self, "__shim", "--real", real_, "--log", out, "--"] + args)
  {
    ScriptPieces(self, real_, out);
    var t0 := "--" + (" " + "\"$@\"\n");
    var t1 := "--log" + (" " + (ShellQuote(out) + (" " + t0)));
    var t2 := "--real" + (" " + (ShellQuote(real_) + (" " + t1)));
    AllArgumentsRead(args);
    BareWord("--", "\"$@\"\n", args);
    OptionReads("--log", out, t0, args);
    OptionReads("--real", real_, t1, args);
    ProgramReads(self, t2, args);
    FlatWords(self, real_, out, args);
  }

  lemma OptionReads(flag: string, value: string, k: string, args: seq<string>)
    requires Bare(flag)
    ensures Read(flag + (" " + (ShellQuote(value) + (" " + k))), Between, args)
            == Cons(flag, Cons(value, Read(k, Between, args)))
  {
    BareWord(flag, ShellQuote(value) + (" " + k), args);
    QuotedWord(value, k, args);
  }

  lemma ProgramReads(self: string, k: string, args: seq<string>)
    ensures Read("exec" + (" " + (ShellQuote(self) + (" " + ("__shim" + (" " + k))))), Between, args)
         == Cons("exec", Cons(self, Cons("__shim", Read(k, Between, args))))
  {
    OptionReads("exec", self, "__shim" + (" " + k), args);
    BareWord("__shim", k, args);
  }

  lemma FlatWords(self: string, real_: string, out: string, args: seq<string>)
    ensures ["exec"] + ([self] + (["__shim"] + (["--real"] + ([real_] + (["--log"] + ([out] + (["--"] + args)))))))
         == ["exec", self, "__shim", "--real", real_, "--log", out, "--"] + args
  {
  }

  // ---------------------------------------------------------------- the argument loop

  datatype Call = Call(real_: string, log: string, forwarded: seq<string>)

  /** The loop of commandShim from index on. */
  function Scan(args: seq<string>, index: nat, c: Call): Call
    decreases |args| - index
  {
    if index >= |args| then c
    else if args[index] == "--real" then
      Scan(args, index + 2, if index + 1 < |args| then c.(real_ := args[index + 1]) else c)
    else if args[index] == "--log" then
      Scan(args, index + 2, if index + 1 < |args| then c.(log := args[index + 1]) else c)
    else if args[index] == "--" then c.(forwarded := c.forwarded + args[index + 1..])
    else Scan(args, index + 1, c)
  }

  const NOTHING: Call := Call("", "", [])

  /** commandShim up to the call of runShim; None is exit code 126. */
  method CommandShim(args: seq<string>) returns (r: Option<Call>)
    ensures var c := Scan(args, 0, NOTHING); r == if c.real_ == "" || c.log == "" then None else Some(c)
  {
    var real_, log := "", "";
    var forwarded: seq<string> := [];
    var index := 0;
    while index < |args|
      invariant 0 <= index
      invariant Scan(args, index, Call(real_, log, forwarded)) == Scan(args, 0, NOTHING)
      decreases |args| - index
    {
      var arg := args[index];
      if arg == "--real" {
        index := index + 1;
        if index < |args| { real_ := args[index]; }
      } else if arg == "--log" {
        index := index + 1;
        if index < |args| { log := args[index]; }
      } else if arg == "--" {
        forwarded := forwarded + args[index + 1..];
        index := |args|;
      }
      index := index + 1;
    }
    if real_ == "" || log == "" { return None; }
    r := Some(Call(real_, log, forwarded));
  }

  /** The paths and the user's arguments come back unchanged, whatever the arguments are. */
  lemma ScanRecovers(real_: string, log: string, user: seq<string>)
    ensures Scan(["--real", real_, "--log", log, "--"] + user, 0, NOTHING) == Call(real_, log, user)
  {
    var args := ["--real", real_, "--log", log, "--"] + user;
    var c1 := NOTHING.(real_ := real_);
    var c2 := c1.(log := log);
    assert args[5..] == user && [] + user == user;
    assert Scan(args, 4, c2) == Call(real_, log, user);
    assert Scan(args, 2, c1) == Scan(args, 4, c2);
    assert Scan(args, 0, NOTHING) == Scan(args, 2, c1);
  }

  /** From the script to the real program: the shell's reading of the script, handed to the shim,
      forwards the user's arguments exactly, including any "--", "--real" or "--log" among them. */
  method ShimIsTransparent(self: string, real_: string, out: string, user: seq<string>) returns (r: Option<Call>)
    ensures r.Some? <==> real_ != "" && out != ""
    ensures r.Some? ==> r.value == Call(real_, out, user)
  {
    var words := Words(ScriptLine(self, real_, out), user);
    ScriptReads(self, real_, out, user);
    var args := words.value[3..];
    assert args == ["--real", real_, "--log", out, "--"] + user;
    ScanRecovers(real_, out, user);
    r := CommandShim(args);
  }

  /** Two texts with one quoted form are one text. */
  lemma QuoteInjective(a: string, b: string)
    requires ShellQuote(a) == ShellQuote(b)
    ensures a == b
  {
    QuoteIsOneWord(a, []);
    QuoteIsOneWord(b, []);
    assert [a][0] == [b][0];
  }
}
