/**
 * Commands that are shown for pasting into a terminal, and a shell that reads them: blanks separate
 * words, newlines separate commands, a backslash quotes one character (section 2.2.1 of the POSIX
 * Shell Command Language, IEEE Std 1003.1) and single quotes everything up to the next one (2.2.2).
 * What needs more of the shell than that - expansions, redirections, a NUL - is not read at all.
 */
module ShellQuote {
  import opened Common

  // ---- The commands ----

  /** The text with every quote replaced by `'\''`. */
  function ReplaceQuotes(value: string): string {
    if value == "" then ""
    else (if value[0] == '\'' then "'\\''" else [value[0]]) + ReplaceQuotes(value[1..])
  }

  function Quote(value: string): string {
    "'" + ReplaceQuotes(value) + "'"
  }

  datatype OneCommandClient = Claude | Codex | Copilot | Gemini | Grok | Hermes | Opencode {
    function Name(): string {
      match this
      case Claude => "claude"
      case Codex => "codex"
      case Copilot => "copilot"
      case Gemini => "gemini"
      case Grok => "grok"
      case Hermes => "hermes"
      case Opencode => "opencode"
    }
  }

  datatype NativeMcpClient = NativeCopilot | NativeGemini | NativeOpencode

  function OneCommandSetup(mcpUrl: string, client: OneCommandClient): string {
    "npx mdevolved@latest connect " + Quote(mcpUrl) + " --client " + client.Name()
  }

  function NativeMcpSetup(mcpUrl: string, client: NativeMcpClient): string {
    match client
    case NativeCopilot => "copilot mcp add --transport http mdevolved " + Quote(mcpUrl)
    case NativeGemini => "gemini mcp add mdevolved " + Quote(mcpUrl) + " --transport http"
    case NativeOpencode => "opencode mcp add mdevolved --url " + Quote(mcpUrl)
  }

  const SCOPES: string := "vault.read," + "project.initialize.request," + "project.connect.request"

  function CodexSetupCommands(mcpUrl: string): string {
    "codex mcp add md-evolved --url " + Quote(mcpUrl)
    + "\n"
    + "codex mcp login md-evolved --scopes " + SCOPES
  }

  // ---- A reader of shell words ----

  /** Where the reader is: between words, in one, inside quotes, or behind a backslash. */
  datatype Mode = Between | InWord(text: string) | InQuotes(text: string) | Escaped(started: bool, text: string)

  /** The commands read so far, the words of the current one, and the mode. */
  datatype State = State(commands: seq<seq<string>>, words: seq<string>, mode: Mode)

  /** The characters that section 2.2 wants quoted, apart from blanks, newline and quoting itself. */
  const SPECIAL: string := "|&;<>()$`\"*?[]#~=%{}!"

  function TextOf(mode: Mode): string {
    if mode.Between? then "" else mode.text
  }

  function EndWord(s: State): State
    requires s.mode.Between? || s.mode.InWord?
  {
    if s.mode.Between? then s else State(s.commands, s.words + [s.mode.text], Between)
  }

  function EndCommand(s: State): State
    requires s.mode.Between? || s.mode.InWord?
  {
    var ended := EndWord(s);
    State(ended.commands + [ended.words], [], Between)
  }

  function Advance(s: State, c: char): Option<State> {
    if c == '\0' then None
    else
      match s.mode
      case InQuotes(text) => Some(s.(mode := if c == '\'' then InWord(text) else InQuotes(text + [c])))
      case Escaped(started, text) =>
        Some(s.(mode := if c != '\n' then InWord(text + [c]) else if started then InWord(text) else Between))
      case _ =>
        if c == '\'' then Some(s.(mode := InQuotes(TextOf(s.mode))))
        else if c == '\\' then Some(s.(mode := Escaped(s.mode.InWord?, TextOf(s.mode))))
        else if c == ' ' || c == '\t' then Some(EndWord(s))
        else if c == '\n' then Some(EndCommand(s))
        else if c in SPECIAL then None
        else Some(s.(mode := InWord(TextOf(s.mode) + [c])))
  }

  function Read(s: State, text: string): Option<State>
    decreases |text|
  {
    if text == "" then Some(s)
    else
      match Advance(s, text[0])
      case None => None
      case Some(next) => Read(next, text[1..])
  }

  /** The commands of a text, each as its list of words, if the text can be read. */
  function Commands(text: string): Option<seq<seq<string>>> {
    match Read(State([], [], Between), text)
    case None => None
    case Some(s) => if s.mode.Between? || s.mode.InWord? then Some(EndCommand(s).commands) else None
  }

  lemma {:induction false} ReadAppend(s: State, a: string, b: string)
    ensures Read(s, a + b) == (match Read(s, a) case None => None case Some(next) => Read(next, b))
    decreases |a|
  {
    if a == "" {
      assert a + b == b;
    } else {
      assert (a + b)[0] == a[0] && (a + b)[1..] == a[1..] + b;
      match Advance(s, a[0])
      case None =>
      case Some(next) => ReadAppend(next, a[1..], b);
    }
  }

  // ---- Quoting is undone by reading ----

  lemma {:induction false} ReadQuoteAway(s: State)
    requires s.mode.InQuotes?
    ensures Read(s, "'\\''") == Some(s.(mode := InQuotes(s.mode.text + "'")))
  {
    var text := "'\\''";
    var s1 := s.(mode := InWord(s.mode.text));
    var s2 := s.(mode := Escaped(true, s.mode.text));
    var s3 := s.(mode := InWord(s.mode.text + "'"));
    assert Advance(s, '\'') == Some(s1) && Advance(s1, '\\') == Some(s2) && Advance(s2, '\'') == Some(s3);
    assert text[1..] == "\\''" && text[1..][1..] == "''" && text[1..][1..][1..] == "'";
    assert text[1..][1..][1..][1..] == "";
    assert Read(s3, "'") == Read(s.(mode := InQuotes(s.mode.text + "'")), "");
    assert Read(s2, "''") == Read(s3, "'");
    assert Read(s1, "\\''") == Read(s2, "''");
  }

  lemma {:induction false} ReadInsideQuotes(s: State, value: string)
    requires s.mode.InQuotes?
    ensures Read(s, ReplaceQuotes(value)) ==
            if '\0' in value then None else Some(s.(mode := InQuotes(s.mode.text + value)))
    decreases |value|
  {
    if value == "" {
      assert s.mode.text + value == s.mode.text;
    } else {
      var c, rest := value[0], value[1..];
      var first := if c == '\'' then "'\\''" else [c];
      var next := s.(mode := InQuotes(s.mode.text + [c]));
      assert value == [c] + rest;
      ReadAppend(s, first, ReplaceQuotes(rest));
      if c == '\'' {
        ReadQuoteAway(s);
      } else if c == '\0' {
        assert Advance(s, c) == None;
      } else {
        assert [c][1..] == "";
        assert Read(s, [c]) == Read(next, "");
      }
      if c != '\0' {
        ReadInsideQuotes(next, rest);
        assert s.mode.text + [c] + rest == s.mode.text + value;
      }
    }
  }

  /**
   * Wherever a word may begin or go on, a quoted value contributes exactly its own characters to
   * that word; only a NUL makes it unreadable.
   */
  lemma {:induction false} ReadQuoted(s: State, value: string)
    requires s.mode.Between? || s.mode.InWord?
    ensures Read(s, Quote(value)) ==
            if '\0' in value then None else Some(s.(mode := InWord(TextOf(s.mode) + value)))
  {
    var entered := s.(mode := InQuotes(TextOf(s.mode)));
    assert Quote(value) == ['\''] + (ReplaceQuotes(value) + ['\'']);
    assert Advance(s, '\'') == Some(entered);
    assert Quote(value)[1..] == ReplaceQuotes(value) + ['\''];
    ReadAppend(entered, ReplaceQuotes(value), ['\'']);
    ReadInsideQuotes(entered, value);
    if '\0' !in value {
      var inside := s.(mode := InQuotes(TextOf(s.mode) + value));
      assert ['\''][1..] == "";
      assert Read(inside, ['\'']) == Read(s.(mode := InWord(TextOf(s.mode) + value)), "");
    }
  }

  /** Round trip: a quoted value alone is one command of one word, the value - if and only if it has no NUL. */
  lemma {:induction false} QuotedIsOneWord(value: string)
    ensures Commands(Quote(value)) == Some([[value]]) <==> '\0' !in value
    ensures Commands(Quote(value)).None? <==> '\0' in value
  {
    ReadQuoted(State([], [], Between), value);
    assert "" + value == value;
    assert [] + [value] == [value];
    assert [] + [[value]] == [[value]];
  }

  // ---- Quoted values inside the commands ----

  /** Characters of the fixed words, none of which means anything to the shell. */
  predicate Plain(c: char) {
    'a' <= c <= 'z' || c == '-' || c == '.' || c == ',' || c == '@'
  }

  predicate PlainWord(w: string) {
    w != "" && forall c <- w :: Plain(c)
  }

  /** Read where a word may begin, the text gives these words and ends within the last of them. */
  ghost predicate Spells(text: string, words: seq<string>) {
    && words != []
    && forall s: State :: s.mode.Between? ==>
         Read(s, text) == Some(State(s.commands, s.words + words[..|words| - 1], InWord(words[|words| - 1])))
  }

  lemma {:induction false} ReadPlain(s: State, w: string)
    requires s.mode.Between? || s.mode.InWord?
    requires PlainWord(w)
    ensures Read(s, w) == Some(s.(mode := InWord(TextOf(s.mode) + w)))
    decreases |w|
  {
    var next := s.(mode := InWord(TextOf(s.mode) + [w[0]]));
    assert w[0] in w && Advance(s, w[0]) == Some(next);
    assert w == [w[0]] + w[1..];
    if w[1..] != "" {
      ReadPlain(next, w[1..]);
      assert TextOf(s.mode) + [w[0]] + w[1..] == TextOf(s.mode) + w;
    } else {
      assert w == [w[0]];
    }
  }

  lemma {:induction false} PlainSpells(w: string)
    requires PlainWord(w)
    ensures Spells(w, [w])
  {
    forall s: State | s.mode.Between?
      ensures Read(s, w) == Some(State(s.commands, s.words + [], InWord(w)))
    {
      ReadPlain(s, w);
      assert "" + w == w && s.words + [] == s.words;
    }
  }

  lemma {:induction false} QuoteSpells(value: string)
    requires '\0' !in value
    ensures Spells(Quote(value), [value])
  {
    forall s: State | s.mode.Between?
      ensures Read(s, Quote(value)) == Some(State(s.commands, s.words + [], InWord(value)))
    {
      ReadQuoted(s, value);
      assert "" + value == value && s.words + [] == s.words;
    }
  }

  /** A blank ends the word that was open. */
  lemma {:induction false} WordEnds(
      commands: seq<seq<string>>, before: seq<string>, words: seq<string>, rest: string)
    requires words != []
    ensures Read(State(commands, before + words[..|words| - 1], InWord(words[|words| - 1])), " " + rest)
            == Read(State(commands, before + words, Between), rest)
  {
    var text := " " + rest;
    assert text[0] == ' ' && text[1..] == rest;
    assert before + words[..|words| - 1] + [words[|words| - 1]] == before + words;
  }

  lemma {:induction false} SpelledBehind(
      commands: seq<seq<string>>, before: seq<string>, text: string, words: seq<string>)
    requires Spells(text, words)
    ensures Read(State(commands, before, Between), text)
            == Some(State(commands, before + words[..|words| - 1], InWord(words[|words| - 1])))
  {
  }

  lemma {:induction false} SpellsBothFrom(
      commands: seq<seq<string>>, before: seq<string>, a: string, u: seq<string>, b: string, v: seq<string>)
    requires Spells(a, u) && Spells(b, v)
    ensures Read(State(commands, before, Between), a + " " + b)
            == Some(State(commands, before + (u + v)[..|u + v| - 1], InWord((u + v)[|u + v| - 1])))
  {
    var rest := " " + b;
    SpelledBehind(commands, before, a, u);
    ReadAppend(State(commands, before, Between), a, rest);
    assert a + " " + b == a + rest;
    WordEnds(commands, before, u, b);
    SpelledBehind(commands, before + u, b, v);
    assert before + u + v[..|v| - 1] == before + (u + v)[..|u + v| - 1];
  }

  lemma {:induction false} SpellsBoth(a: string, u: seq<string>, b: string, v: seq<string>)
    requires Spells(a, u) && Spells(b, v)
    ensures Spells(a + " " + b, u + v)
  {
    forall s: State | s.mode.Between?
      ensures Read(s, a + " " + b) ==
              Some(State(s.commands, s.words + (u + v)[..|u + v| - 1], InWord((u + v)[|u + v| - 1])))
    {
      SpellsBothFrom(s.commands, s.words, a, u, b, v);
    }
  }

  lemma {:induction false} SpelledIsOneCommand(text: string, words: seq<string>)
    requires Spells(text, words)
    ensures Commands(text) == Some([words])
  {
    assert [] + words[..|words| - 1] + [words[|words| - 1]] == words;
    assert [] + [words] == [words];
  }

  /** Where a command may begin, a spelled text leaves its last word open. */
  lemma {:induction false} SpelledFrom(commands: seq<seq<string>>, text: string, words: seq<string>)
    requires Spells(text, words)
    ensures Read(State(commands, [], Between), text)
            == Some(State(commands, words[..|words| - 1], InWord(words[|words| - 1])))
  {
    assert [] + words[..|words| - 1] == words[..|words| - 1];
  }

  /** A newline ends the command, and reading goes on behind it. */
  lemma {:induction false} LineEnds(commands: seq<seq<string>>, words: seq<string>, rest: string)
    requires words != []
    ensures Read(State(commands, words[..|words| - 1], InWord(words[|words| - 1])), "\n" + rest)
            == Read(State(commands + [words], [], Between), rest)
  {
    var text := "\n" + rest;
    assert text[0] == '\n' && text[1..] == rest;
    assert words[..|words| - 1] + [words[|words| - 1]] == words;
  }

  lemma {:induction false} SpelledLines(a: string, u: seq<string>, b: string, v: seq<string>)
    requires Spells(a, u) && Spells(b, v)
    ensures Commands(a + "\n" + b) == Some([u, v])
  {
    var rest := "\n" + b;
    SpelledFrom([], a, u);
    ReadAppend(State([], [], Between), a, rest);
    assert a + "\n" + b == a + rest;
    LineEnds([], u, b);
    SpelledFrom([u], b, v);
    assert [] + [u] == [u] && v[..|v| - 1] + [v[|v| - 1]] == v && [u] + [v] == [u, v];
  }

  /** A NUL in a quoted value makes everything around it unreadable. */
  lemma {:induction false} NulIsUnreadable(before: string, words: seq<string>, value: string, after: string)
    requires Spells(before, words) && '\0' in value
    ensures Commands(before + " " + Quote(value) + after).None?
  {
    var start := State([], [], Between);
    var mid := State([], [] + words[..|words| - 1], InWord(words[|words| - 1]));
    ReadAppend(start, before, " " + (Quote(value) + after));
    assert before + " " + Quote(value) + after == before + (" " + (Quote(value) + after));
    var rest := " " + (Quote(value) + after);
    assert rest[0] == ' ' && rest[1..] == Quote(value) + after;
    ReadQuoted(EndWord(mid), value);
    ReadAppend(EndWord(mid), Quote(value), after);
  }

  lemma {:induction false} NamesArePlain(client: OneCommandClient)
    ensures PlainWord(client.Name())
  {
  }

  lemma {:induction false} WordSpells(text: string, words: seq<string>, w: string)
    requires Spells(text, words) && PlainWord(w)
    ensures Spells(text + " " + w, words + [w])
  {
    PlainSpells(w);
    SpellsBoth(text, words, w, [w]);
  }

  lemma {:induction false} ValueSpells(text: string, words: seq<string>, value: string)
    requires Spells(text, words) && '\0' !in value
    ensures Spells(text + " " + Quote(value), words + [value])
  {
    QuoteSpells(value);
    SpellsBoth(text, words, Quote(value), [value]);
  }

  /** The fixed words in front of a value, written with single blanks between them. */
  function Joined(words: seq<string>): string
    requires words != []
  {
    if |words| == 1 then words[0] else Joined(words[..|words| - 1]) + " " + words[|words| - 1]
  }

  lemma {:induction false} JoinedSpells(words: seq<string>)
    requires words != [] && forall w <- words :: PlainWord(w)
    ensures Spells(Joined(words), words)
    decreases |words|
  {
    var last := words[|words| - 1];
    assert last in words;
    if |words| == 1 {
      assert words == [last];
      PlainSpells(last);
    } else {
      var front := words[..|words| - 1];
      JoinedSpells(front);
      WordSpells(Joined(front), front, last);
      assert front + [last] == words;
    }
  }

  /** A command line: fixed words, the quoted value, fixed words again. */
  function Line(front: seq<string>, value: string, rest: seq<string>): string
    requires front != []
  {
    Joined(front) + " " + Quote(value) + if rest == [] then "" else " " + Joined(rest)
  }

  /** Reading a command line gives back its words with the value as one of them, unless it has a NUL. */
  lemma {:induction false} LineReadsBack(front: seq<string>, value: string, rest: seq<string>)
    requires front != [] && (forall w <- front :: PlainWord(w)) && (forall w <- rest :: PlainWord(w))
    ensures '\0' !in value ==> Spells(Line(front, value, rest), front + [value] + rest)
    ensures Commands(Line(front, value, rest)) == Some([front + [value] + rest]) <==> '\0' !in value
  {
    JoinedSpells(front);
    if '\0' in value {
      NulIsUnreadable(Joined(front), front, value, if rest == [] then "" else " " + Joined(rest));
    } else {
      ValueSpells(Joined(front), front, value);
      if rest == [] {
        assert front + [value] + rest == front + [value];
        assert Line(front, value, rest) == Joined(front) + " " + Quote(value);
      } else {
        JoinedSpells(rest);
        SpellsBoth(Joined(front) + " " + Quote(value), front + [value], Joined(rest), rest);
        assert Line(front, value, rest) == Joined(front) + " " + Quote(value) + " " + Joined(rest);
      }
      SpelledIsOneCommand(Line(front, value, rest), front + [value] + rest);
    }
  }

  lemma {:induction false} JoinTwo(a: string, b: string)
    ensures Joined([a, b]) == a + " " + b
  {
    assert [a, b][..1] == [a];
  }

  lemma {:induction false} JoinThree(a: string, b: string, c: string)
    ensures Joined([a, b, c]) == a + " " + b + " " + c
  {
    JoinTwo(a, b);
    assert [a, b, c][..2] == [a, b];
  }

  /** How a template reads: a literal with a trailing blank, the quoted value, a literal with a leading one. */
  lemma {:induction false} TemplateIsALine(front: seq<string>, value: string, rest: seq<string>)
    requires front != [] && rest != []
    ensures Joined(front) + " " + Quote(value) + (" " + Joined(rest)) == Line(front, value, rest)
  {
  }

  lemma {:induction false} OneCommandFront()
    ensures Joined(["npx", "mdevolved@latest", "connect"]) + " " == "npx mdevolved@latest connect "
  {
    JoinThree("npx", "mdevolved@latest", "connect");
  }

  lemma {:induction false} OneCommandRest(name: string)
    ensures " " + Joined(["--client", name]) == " --client " + name
  {
    JoinTwo("--client", name);
  }

  lemma {:induction false} Regroup(a: string, b: string, c: string, d: string)
    ensures a + b + c + d == a + b + (c + d)
  {
  }

  lemma {:induction false} OneCommandIsALine(mcpUrl: string, client: OneCommandClient)
    ensures OneCommandSetup(mcpUrl, client)
            == Line(["npx", "mdevolved@latest", "connect"], mcpUrl, ["--client", client.Name()])
  {
    OneCommandFront();
    OneCommandRest(client.Name());
    TemplateIsALine(["npx", "mdevolved@latest", "connect"], mcpUrl, ["--client", client.Name()]);
    Regroup("npx mdevolved@latest connect ", Quote(mcpUrl), " --client ", client.Name());
  }

  /** Whatever the URL is, the pasted command hands it over unchanged as one argument. */
  lemma {:induction false} OneCommandReadsBack(mcpUrl: string, client: OneCommandClient)
    ensures Commands(OneCommandSetup(mcpUrl, client))
            == Some([["npx", "mdevolved@latest", "connect", mcpUrl, "--client", client.Name()]])
            <==> '\0' !in mcpUrl
  {
    OneCommandIsALine(mcpUrl, client);
    NamesArePlain(client);
    LineReadsBack(["npx", "mdevolved@latest", "connect"], mcpUrl, ["--client", client.Name()]);
    assert ["npx", "mdevolved@latest", "connect"] + [mcpUrl] + ["--client", client.Name()]
        == ["npx", "mdevolved@latest", "connect", mcpUrl, "--client", client.Name()];
  }

  lemma {:induction false} JoinAppend(a: seq<string>, b: seq<string>)
    requires a != [] && b != []
    ensures Joined(a + b) == Joined(a) + " " + Joined(b)
    decreases |b|
  {
    var last := b[|b| - 1];
    if |b| == 1 {
      assert (a + b)[..|a|] == a;
    } else {
      var front := b[..|b| - 1];
      JoinAppend(a, front);
      assert (a + b)[..|a + b| - 1] == a + front;
    }
  }

  const COPILOT: seq<string> := ["copilot", "mcp", "add"] + ["--transport", "http", "mdevolved"]
  const GEMINI: seq<string> := ["gemini", "mcp"] + ["add", "mdevolved"]
  const OPENCODE: seq<string> := ["opencode", "mcp", "add"] + ["mdevolved", "--url"]
  const CODEX_ADD: seq<string> := ["codex", "mcp", "add"] + ["md-evolved", "--url"]
  const CODEX_LOGIN: seq<string> := ["codex", "mcp", "login"] + ["md-evolved", "--scopes", SCOPES]
  const OVER_HTTP: seq<string> := ["--transport", "http"]

  function NativeFront(client: NativeMcpClient): seq<string> {
    match client
    case NativeCopilot => COPILOT
    case NativeGemini => GEMINI
    case NativeOpencode => OPENCODE
  }

  function NativeRest(client: NativeMcpClient): seq<string> {
    if client.NativeGemini? then OVER_HTTP else []
  }

  lemma {:induction false} JoinSix(a: string, b: string, c: string, d: string, e: string, f: string)
    ensures Joined([a, b, c] + [d, e, f]) == a + " " + b + " " + c + " " + (d + " " + e + " " + f)
  {
    JoinThree(a, b, c);
    JoinThree(d, e, f);
    JoinAppend([a, b, c], [d, e, f]);
  }

  lemma {:induction false} CopilotFront()
    ensures Joined(COPILOT) == "copilot mcp add --transport http mdevolved"
  {
    JoinSix("copilot", "mcp", "add", "--transport", "http", "mdevolved");
  }

  lemma {:induction false} CopilotIsALine(mcpUrl: string)
    ensures NativeMcpSetup(mcpUrl, NativeCopilot) == Line(COPILOT, mcpUrl, [])
  {
    CopilotFront();
  }

  lemma {:induction false} GeminiFront()
    ensures Joined(GEMINI) + " " == "gemini mcp add mdevolved "
  {
    JoinTwo("gemini", "mcp");
    JoinTwo("add", "mdevolved");
    JoinAppend(["gemini", "mcp"], ["add", "mdevolved"]);
  }

  lemma {:induction false} OverHttp()
    ensures " " + Joined(OVER_HTTP) == " --transport http"
  {
    JoinTwo("--transport", "http");
  }

  lemma {:induction false} GeminiIsALine(mcpUrl: string)
    ensures NativeMcpSetup(mcpUrl, NativeGemini) == Line(GEMINI, mcpUrl, OVER_HTTP)
  {
    GeminiFront();
    OverHttp();
    TemplateIsALine(GEMINI, mcpUrl, OVER_HTTP);
  }

  lemma {:induction false} OpencodeIsALine(mcpUrl: string)
    ensures NativeMcpSetup(mcpUrl, NativeOpencode) == Line(OPENCODE, mcpUrl, [])
  {
    JoinThree("opencode", "mcp", "add");
    JoinTwo("mdevolved", "--url");
    JoinAppend(["opencode", "mcp", "add"], ["mdevolved", "--url"]);
  }

  ghost predicate AllPlain(words: seq<string>) {
    words != [] && forall w <- words :: PlainWord(w)
  }

  lemma {:induction false} NativeWordsArePlain(client: NativeMcpClient)
    ensures AllPlain(NativeFront(client))
    ensures forall w <- NativeRest(client) :: PlainWord(w)
  {
  }

  /** The same for the clients with a command of their own. */
  lemma {:induction false} NativeMcpReadsBack(mcpUrl: string, client: NativeMcpClient)
    ensures Commands(NativeMcpSetup(mcpUrl, client)) == Some([NativeFront(client) + [mcpUrl] + NativeRest(client)])
            <==> '\0' !in mcpUrl
  {
    match client {
      case NativeCopilot => CopilotIsALine(mcpUrl);
      case NativeGemini => GeminiIsALine(mcpUrl);
      case NativeOpencode => OpencodeIsALine(mcpUrl);
    }
    NativeWordsArePlain(client);
    LineReadsBack(NativeFront(client), mcpUrl, NativeRest(client));
  }

  lemma {:induction false} PlainAppend(a: string, b: string)
    requires PlainWord(a) && PlainWord(b)
    ensures PlainWord(a + b)
  {
  }

  lemma {:induction false} ScopesArePlain()
    ensures PlainWord(SCOPES)
  {
    PlainAppend("vault.read,", "project.initialize.request,");
    PlainAppend("vault.read," + "project.initialize.request,", "project.connect.request");
  }

  lemma {:induction false} CodexAddIsPlain()
    ensures AllPlain(CODEX_ADD)
  {
  }

  lemma {:induction false} CodexLoginIsPlain(scopes: string)
    requires PlainWord(scopes)
    ensures AllPlain(["codex", "mcp", "login"] + ["md-evolved", "--scopes", scopes])
  {
  }

  lemma {:induction false} CodexAddFront()
    ensures Joined(CODEX_ADD) == "codex mcp add md-evolved --url"
  {
    JoinThree("codex", "mcp", "add");
    JoinTwo("md-evolved", "--url");
    JoinAppend(["codex", "mcp", "add"], ["md-evolved", "--url"]);
  }

  lemma {:induction false} CodexLoginLine(scopes: string)
    ensures Joined(["codex", "mcp", "login"] + ["md-evolved", "--scopes", scopes])
            == "codex mcp login md-evolved --scopes " + scopes
  {
    JoinThree("codex", "mcp", "login");
    JoinThree("md-evolved", "--scopes", scopes);
    JoinAppend(["codex", "mcp", "login"], ["md-evolved", "--scopes", scopes]);
  }

  lemma {:induction false} CodexAddLine(mcpUrl: string)
    ensures Line(CODEX_ADD, mcpUrl, []) == "codex mcp add md-evolved --url " + Quote(mcpUrl)
  {
    CodexAddFront();
  }

  lemma {:induction false} CodexIsTwoLines(mcpUrl: string)
    ensures CodexSetupCommands(mcpUrl) == Line(CODEX_ADD, mcpUrl, []) + "\n" + Joined(CODEX_LOGIN)
  {
    CodexAddLine(mcpUrl);
    CodexLoginLine(SCOPES);
  }

  lemma {:induction false} TwoLinesReadBack(front: seq<string>, value: string, second: seq<string>)
    requires AllPlain(front) && AllPlain(second)
    ensures Commands(Line(front, value, []) + "\n" + Joined(second)) == Some([front + [value], second])
            <==> '\0' !in value
  {
    JoinedSpells(second);
    if '\0' in value {
      JoinedSpells(front);
      NulIsUnreadable(Joined(front), front, value, "\n" + Joined(second));
      assert Line(front, value, []) == Joined(front) + " " + Quote(value);
      assert Line(front, value, []) + "\n" + Joined(second)
          == Joined(front) + " " + Quote(value) + ("\n" + Joined(second));
    } else {
      LineReadsBack(front, value, []);
      assert front + [value] + [] == front + [value];
      SpelledLines(Line(front, value, []), front + [value], Joined(second), second);
    }
  }

  /** The two Codex commands stay two commands, also when the URL holds newlines or quotes. */
  lemma {:induction false} CodexReadsBack(mcpUrl: string)
    ensures Commands(CodexSetupCommands(mcpUrl)) == Some([CODEX_ADD + [mcpUrl], CODEX_LOGIN]) <==> '\0' !in mcpUrl
  {
    CodexIsTwoLines(mcpUrl);
    CodexAddIsPlain();
    ScopesArePlain();
    CodexLoginIsPlain(SCOPES);
    TwoLinesReadBack(CODEX_ADD, mcpUrl, CODEX_LOGIN);
  }
}
