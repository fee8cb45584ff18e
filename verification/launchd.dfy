/** The launchd plist writer (internal/app/launchd.go) and the reader that recovers the service's configuration from it
    (internal/app/doctor.go), at the level of XML tokens: markup is a token, and so is each maximal stretch of text. */
module Launchd {
  import opened Options

  datatype Token = Open(name: string) | Close(name: string) | Text(text: string) | Prolog

  // ----- strings.TrimSpace -----

  predicate IsSpace(c: char) {
    '\t' <= c <= '\r' || c == ' ' || c == '\U{0085}' || c == '\U{00A0}' || c == '\U{1680}' ||
    '\U{2000}' <= c <= '\U{200A}'
    || c == '\U{2028}' || c == '\U{2029}' || c == '\U{202F}' || c == '\U{205F}' || c == '\U{3000}'
  }

  function TrimLeft(s: string): string { if s != [] && IsSpace(s[0]) then TrimLeft(s[1..]) else s }

  function TrimRight(s: string): string { if s != [] && IsSpace(s[|s| - 1]) then TrimRight(s[..|s| - 1]) else s }

  function Trim(s: string): string { TrimRight(TrimLeft(s)) }

  predicate Blank(s: string) { Trim(s) == "" }

  predicate Trimmed(s: string) { s == "" || (!IsSpace(s[0]) && !IsSpace(s[|s| - 1])) }

  lemma {:induction false} TrimRightShape(s: string)
    ensures TrimRight(s) <= s && (TrimRight(s) != "" ==> !IsSpace(TrimRight(s)[|TrimRight(s)| - 1]))
    ensures |TrimRight(s)| == |s| ==> s == "" || !IsSpace(s[|s| - 1])
  {
    if s != [] && IsSpace(s[|s| - 1]) { TrimRightShape(s[..|s| - 1]); }
  }

  lemma {:induction false} TrimLeftShape(s: string)
    ensures |TrimLeft(s)| <= |s| && (TrimLeft(s) != "" ==> !IsSpace(TrimLeft(s)[0]))
    ensures |TrimLeft(s)| == |s| ==> TrimLeft(s) == s
  {
    if s != [] && IsSpace(s[0]) { TrimLeftShape(s[1..]); }
  }

  /** Trimming leaves a string alone exactly when there is no space at either end. */
  lemma TrimFixedIff(s: string)
    ensures Trim(s) == s <==> Trimmed(s)
  {
    TrimLeftShape(s);
    TrimRightShape(TrimLeft(s));
  }

  // ----- The writer -----

  /** Appends character data, merging it with text just written: the decoder reports it as one token. */
  function Coalesce(tokens: seq<Token>, text: string): seq<Token> {
    if text == "" then tokens
    else if tokens != [] && tokens[|tokens| - 1].Text? then
      tokens[..|tokens| - 1] + [Text(tokens[|tokens| - 1].text + text)]
    else tokens + [Text(text)]
  }

  function Content(text: string): seq<Token> { if text == "" then [] else [Text(text)] }

  /** One element holding only text, preceded by the line break and indentation written before it. */
  function Element(indent: string, name: string, text: string): seq<Token> {
    [Text("\n" + indent), Open(name)] + Content(text) + [Close(name)]
  }

  function ArgumentTokens(args: seq<string>): seq<Token> {
    if args == [] then []
    else ArgumentTokens(args[..|args| - 1]) + Element("    ", "string", args[|args| - 1])
  }

  function Opening(): seq<Token> {
    [Prolog, Text("\n"), Prolog, Text("\n"), Open("plist"), Text("\n"), Open("dict")]
  }

  /** Everything before the arguments. */
  function Head(service: string): seq<Token> {
    Opening() + Element("  ", "key", "Label") + Element("  ", "string", service)
    + Element("  ", "key", "ProgramArguments") + [Text("\n" + "  "), Open("array")]
  }

  class PlistWriter {
    var tokens: seq<Token>

    constructor ()
      ensures tokens == []
    {
      tokens := [];
    }

    method Markup(t: Token)
      requires !t.Text?
      modifies this
      ensures tokens == old(tokens) + [t]
    {
      tokens := tokens + [t];
    }

    method Chars(text: string)
      modifies this
      ensures tokens == Coalesce(old(tokens), text)
    {
      tokens := Coalesce(tokens, text);
    }

    ghost predicate AtLineStart(before: seq<Token>)
      reads this
    {
      tokens == before + [Text("\n")]
    }

    method Indent(indent: string, ghost before: seq<Token>)
      requires AtLineStart(before) && indent != ""
      modifies this
      ensures tokens == before + [Text("\n" + indent)]
    {
      Chars(indent);
    }

    /** Writes `indent<name>text</name>` and a line break, after a line break. */
    method Line(indent: string, name: string, text: string, ghost before: seq<Token>)
      requires AtLineStart(before) && indent != ""
      modifies this
      ensures AtLineStart(before + Element(indent, name, text))
    {
      Indent(indent, before);
      Markup(Open(name));
      Chars(text);
      Markup(Close(name));
      Chars("\n");
    }

    /** Writes `indent<name>` or `indent</name>` and a line break, after a line break. */
    method Nest(indent: string, tag: Token, ghost before: seq<Token>)
      requires AtLineStart(before) && indent != "" && !tag.Text?
      modifies this
      ensures AtLineStart(before + [Text("\n" + indent), tag])
    {
      Indent(indent, before);
      Markup(tag);
      Chars("\n");
    }

    method WriteOpening()
      requires tokens == []
      modifies this
      ensures AtLineStart(Opening())
    {
      Markup(Prolog);
      Chars("\n");
      Markup(Prolog);
      Chars("\n");
      Markup(Open("plist"));
      Chars("\n");
      Markup(Open("dict"));
      Chars("\n");
    }

    method WriteHead(service: string)
      requires tokens == []
      modifies this
      ensures AtLineStart(Head(service))
    {
      WriteOpening();
      ghost var before := Opening();
      Line("  ", "key", "Label", before);
      before := before + Element("  ", "key", "Label");
      Line("  ", "string", service, before);
      before := before + Element("  ", "string", service);
      Line("  ", "key", "ProgramArguments", before);
      before := before + Element("  ", "key", "ProgramArguments");
      Nest("  ", Open("array"), before);
    }

    method WriteArguments(args: seq<string>, ghost before: seq<Token>)
      requires AtLineStart(before)
      modifies this
      ensures AtLineStart(before + ArgumentTokens(args))
    {
      assert before + ArgumentTokens([]) == before;
      for i := 0 to |args|
        invariant AtLineStart(before + ArgumentTokens(args[..i]))
      {
        assert args[..i + 1][..i] == args[..i];
        Line("    ", "string", args[i], before + ArgumentTokens(args[..i]));
        assert before + ArgumentTokens(args[..i + 1])
            == before + ArgumentTokens(args[..i]) + Element("    ", "string", args[i]);
      }
      assert args[..|args|] == args;
    }

    /** A key and its string value. */
    method Entry(indent: string, key: string, value: string, ghost before: seq<Token>)
      requires AtLineStart(before) && indent != ""
      modifies this
      ensures AtLineStart(before + Pair(indent, key, value))
    {
      Line(indent, "key", key, before);
      Line(indent, "string", value, before + Element(indent, "key", key));
      assert before + Element(indent, "key", key) + Element(indent, "string", value)
          == before + Pair(indent, key, value);
    }

    /** A key that is set: the decoder expands the empty element into its two tags. */
    method Flag(key: string, ghost before: seq<Token>)
      requires AtLineStart(before)
      modifies this
      ensures AtLineStart(before + Set(key))
    {
      Line("  ", "key", key, before);
      ghost var after := before + Element("  ", "key", key);
      Indent("  ", after);
      Markup(Open("true"));
      Markup(Close("true"));
      Chars("\n");
      assert after + [Text("\n" + "  "), Open("true"), Close("true")] == before + Set(key);
    }

    method WriteEnvironment(ghost before: seq<Token>)
      requires AtLineStart(before)
      modifies this
      ensures AtLineStart(WithEnvironment(before))
    {
      ghost var done := before;
      Line("  ", "key", "EnvironmentVariables", done);
      done := done + Element("  ", "key", "EnvironmentVariables");
      Nest("  ", Open("dict"), done);
      done := done + [Text("\n" + "  "), Open("dict")];
      Entry("    ", "PATH", DEFAULT_PATH, done);
      done := done + Pair("    ", "PATH", DEFAULT_PATH);
      Nest("  ", Close("dict"), done);
    }

    /** Flags, log paths and the end of the document. */
    method WriteEnd(outPath: string, errPath: string, ghost before: seq<Token>)
      requires AtLineStart(before)
      modifies this
      ensures tokens == Ended(before, outPath, errPath)
    {
      ghost var done := before;
      Flag("RunAtLoad", done);
      done := done + Set("RunAtLoad");
      Flag("KeepAlive", done);
      done := done + Set("KeepAlive");
      Entry("  ", "StandardOutPath", outPath, done);
      done := done + Pair("  ", "StandardOutPath", outPath);
      Entry("  ", "StandardErrorPath", errPath, done);
      done := done + Pair("  ", "StandardErrorPath", errPath);
      Markup(Close("dict"));
      Chars("\n");
      Markup(Close("plist"));
      Chars("\n");
      assert tokens == done + [Text("\n"), Close("dict"), Text("\n"), Close("plist"), Text("\n")];
    }
  }

  function Pair(indent: string, key: string, value: string): seq<Token> {
    Element(indent, "key", key) + Element(indent, "string", value)
  }

  function Set(key: string): seq<Token> { Element("  ", "key", key) + [Text("\n" + "  "), Open("true"), Close("true")] }

  function WithEnvironment(before: seq<Token>): seq<Token> {
    before + Element("  ", "key", "EnvironmentVariables") + [Text("\n" + "  "), Open("dict")]
    + Pair("    ", "PATH", DEFAULT_PATH) + [Text("\n" + "  "), Close("dict")]
  }

  function Ended(before: seq<Token>, outPath: string, errPath: string): seq<Token> {
    before + Set("RunAtLoad") + Set("KeepAlive")
    + Pair("  ", "StandardOutPath", outPath) + Pair("  ", "StandardErrorPath", errPath)
    + [Text("\n"), Close("dict"), Text("\n"), Close("plist"), Text("\n")]
  }

  const DEFAULT_PATH := "/opt/homebrew/bin:/usr/local/bin:/usr/bin:/bin:/usr/sbin:/sbin"

  datatype Config = Config(service: string, binPath: string, args: seq<string>, outPath: string, errPath: string)

  function ProgramArguments(c: Config): seq<string> { [c.binPath] + c.args + ["serve", "remote"] }

  /** The document up to the end of its arguments, and the whole of it. */
  function Document(c: Config): seq<Token> {
    Head(c.service) + ArgumentTokens(ProgramArguments(c)) + [Text("\n" + "  "), Close("array")]
  }

  function Plist(c: Config): seq<Token> { Ended(WithEnvironment(Document(c)), c.outPath, c.errPath) }

  lemma DocumentComesFirst(c: Config)
    ensures Document(c) <= Plist(c)
  {
    assert Document(c) <= WithEnvironment(Document(c));
  }

  method Render(c: Config) returns (tokens: Option<seq<Token>>)
    ensures tokens == if Blank(c.service) || Blank(c.binPath) then None else Some(Plist(c))
  {
    if Blank(c.service) || Blank(c.binPath) {
      return None;
    }
    var w := new PlistWriter();
    w.WriteHead(c.service);
    w.WriteArguments(ProgramArguments(c), Head(c.service));
    w.Nest("  ", Close("array"), Head(c.service) + ArgumentTokens(ProgramArguments(c)));
    w.WriteEnvironment(Document(c));
    w.WriteEnd(c.outPath, c.errPath, WithEnvironment(Document(c)));
    return Some(w.tokens);
  }

  // ----- The reader -----

  datatype Reader =
    | Reading(sawProgramArguments: bool, inProgramArguments: bool, inString: bool, args: seq<string>)
    | Found(args: seq<string>)

  const START := Reading(false, false, false, [])

  function Step(r: Reader, t: Token): Reader {
    if r.Found? then r else
    match t
    case Prolog => r
    case Open(name) =>
      if name == "array" && r.sawProgramArguments then r.(inProgramArguments := true, sawProgramArguments := false)
      else if name == "string" && r.inProgramArguments then r.(inString := true)
      else r
    case Close(name) =>
      if name == "array" && r.inProgramArguments then Found(r.args)
      else if name == "string" then r.(inString := false)
      else r
    case Text(text) =>
      if Blank(text) then r
      else if r.inProgramArguments && r.inString then r.(args := r.args + [Trim(text)])
      else if Trim(text) == "ProgramArguments" then r.(sawProgramArguments := true)
      else r
  }

  function Feed(r: Reader, tokens: seq<Token>): Reader
    decreases tokens
  {
    if tokens == [] then r else Feed(Step(r, tokens[0]), tokens[1..])
  }

  function Result(r: Reader): Option<seq<string>> { if r.Found? then Some(r.args) else None }

  /** readLaunchdProgramArguments over a well-formed token stream; None is the not-found error. */
  method ReadProgramArguments(tokens: seq<Token>) returns (result: Option<seq<string>>)
    ensures result == Result(Feed(START, tokens))
  {
    var sawProgramArguments, inProgramArguments, inString := false, false, false;
    var args: seq<string> := [];
    assert tokens[0..] == tokens;
    for i := 0 to |tokens|
      invariant Feed(Reading(sawProgramArguments, inProgramArguments, inString, args), tokens[i..])
              == Feed(START, tokens)
    {
      assert tokens[i..][1..] == tokens[i + 1..];
      match tokens[i]
      case Prolog =>
      case Open(name) =>
        if name == "array" {
          if sawProgramArguments {
            inProgramArguments, sawProgramArguments := true, false;
          }
        } else if name == "string" {
          if inProgramArguments {
            inString := true;
          }
        }
      case Close(name) =>
        if name == "array" {
          if inProgramArguments {
            FeedFound(args, tokens[i + 1..]);
            return Some(args);
          }
        } else if name == "string" {
          inString := false;
        }
      case Text(value) =>
        var text := Trim(value);
        if text != "" {
          if inProgramArguments && inString {
            args := args + [text];
          } else if text == "ProgramArguments" {
            sawProgramArguments := true;
          }
        }
    }
    return None;
  }

  lemma {:induction false} FeedFound(args: seq<string>, tokens: seq<Token>)
    ensures Feed(Found(args), tokens) == Found(args)
  {
    if tokens != [] { FeedFound(args, tokens[1..]); }
  }

  lemma {:induction false} FeedConcat(r: Reader, a: seq<Token>, b: seq<Token>)
    ensures Feed(r, a + b) == Feed(Feed(r, a), b)
    decreases a
  {
    if a == [] {
      assert a + b == b;
    } else {
      assert (a + b)[1..] == a[1..] + b;
      FeedConcat(Step(r, a[0]), a[1..], b);
    }
  }

  // ----- Reading what was written -----

  /** What survives of the arguments: the blank ones vanish, the others lose their surrounding space. */
  function Survivors(args: seq<string>): seq<string> {
    if args == [] then []
    else
      var last := args[|args| - 1];
      Survivors(args[..|args| - 1]) + if Blank(last) then [] else [Trim(last)]
  }

  lemma FeedOne(r: Reader, t: Token)
    ensures Feed(r, [t]) == Step(r, t)
  {
    assert [t][1..] == [];
  }

  lemma {:induction false} AllSpace(s: string)
    requires forall i :: 0 <= i < |s| ==> IsSpace(s[i])
    ensures Blank(s)
  {
    if s != [] { AllSpace(s[1..]); }
  }

  lemma BlankLeads()
    ensures Blank("\n") && Blank("\n" + "  ") && Blank("\n" + "    ")
  {
    AllSpace("\n");
    AllSpace("\n" + "  ");
    AllSpace("\n" + "    ");
  }

  lemma FeedElement(r: Reader, indent: string, name: string, text: string)
    requires r.Reading? && Blank("\n" + indent) && name != "array"
    ensures var inside := Step(r, Open(name));
      Feed(r, Element(indent, name, text)) == Step(if text == "" then inside else Step(inside, Text(text)), Close(name))
  {
    var inside := Step(r, Open(name));
    var lead, content := [Text("\n" + indent), Open(name)], Content(text);
    assert lead[1..] == [Open(name)];
    FeedOne(r, Open(name));
    assert Feed(r, lead) == inside;
    if text != "" { FeedOne(inside, Text(text)); }
    FeedConcat(r, lead + content, [Close(name)]);
    FeedConcat(r, lead, content);
    FeedOne(Feed(inside, content), Close(name));
  }

  lemma {:induction false} FeedArguments(args: seq<string>)
    ensures Feed(Reading(false, true, false, []), ArgumentTokens(args)) == Reading(false, true, false, Survivors(args))
  {
    if args != [] {
      var front, last := args[..|args| - 1], args[|args| - 1];
      FeedArguments(front);
      FeedConcat(Reading(false, true, false, []), ArgumentTokens(front), Element("    ", "string", last));
      BlankLeads();
      FeedElement(Reading(false, true, false, Survivors(front)), "    ", "string", last);
    }
  }

  /** Outside the arguments an element matters only if its text is the key looked for. */
  lemma FeedOutside(r: Reader, indent: string, name: string, text: string)
    requires r.Reading? && !r.inProgramArguments && !r.inString && Blank("\n" + indent) && name != "array"
    ensures Feed(r, Element(indent, name, text)) ==
              if Trim(text) == "ProgramArguments" then r.(sawProgramArguments := true) else r
  {
    FeedElement(r, indent, name, text);
  }

  lemma FeedHead(service: string)
    ensures Feed(START, Head(service)) == Reading(false, true, false, [])
  {
    FeedOpening();
    FeedKeys(START);
    FeedKeys(START.(sawProgramArguments := true));
    BlankLeads();
    FeedOutside(START, "  ", "string", service);
    FeedList(START.(sawProgramArguments := true), [Text("\n" + "  "), Open("array")]);
    FeedSections(Opening(), Element("  ", "key", "Label"), Element("  ", "string", service),
                 Element("  ", "key", "ProgramArguments"), [Text("\n" + "  "), Open("array")]);
  }

  lemma FeedOpening()
    ensures Feed(START, Opening()) == START
  {
    BlankLeads();
    FeedBlank(START, Opening());
  }

  lemma FeedKeys(r: Reader)
    requires r == START || r == START.(sawProgramArguments := true)
    ensures Feed(r, Element("  ", "key", "Label")) == r
    ensures Feed(r, Element("  ", "key", "ProgramArguments")) == START.(sawProgramArguments := true)
  {
    BlankLeads();
    FeedKey(r, "Label");
    FeedKey(r, "ProgramArguments");
  }

  lemma FeedKey(r: Reader, key: string)
    requires (r == START || r == START.(sawProgramArguments := true)) && Trimmed(key) && Blank("\n" + "  ")
    ensures Feed(r, Element("  ", "key", key)) ==
              if key == "ProgramArguments" then r.(sawProgramArguments := true) else r
  {
    TrimFixedIff(key);
    FeedOutside(r, "  ", "key", key);
  }

  /** A label that happens to be the key looked for is harmless: the key itself follows. */
  lemma FeedSections(
    opening: seq<Token>, key: seq<Token>, value: seq<Token>, programArguments: seq<Token>, list: seq<Token>)
    requires Feed(START, opening) == START && Feed(START, key) == START
    requires Feed(START, value) == START || Feed(START, value) == START.(sawProgramArguments := true)
    requires Feed(START, programArguments) == START.(sawProgramArguments := true)
    requires Feed(START.(sawProgramArguments := true), programArguments) == START.(sawProgramArguments := true)
    requires Feed(START.(sawProgramArguments := true), list) == Reading(false, true, false, [])
    ensures Feed(START, opening + key + value + programArguments + list) == Reading(false, true, false, [])
  {
    FeedFive(START, opening, key, value, programArguments, list);
  }

  lemma FeedList(r: Reader, list: seq<Token>)
    requires r == START.(sawProgramArguments := true) && list == [Text("\n" + "  "), Open("array")]
    ensures Feed(r, list) == Reading(false, true, false, [])
  {
    BlankLeads();
    assert list[1..] == [Open("array")];
    FeedOne(r, Open("array"));
  }

  lemma FeedFive(r: Reader, a: seq<Token>, b: seq<Token>, c: seq<Token>, d: seq<Token>, e: seq<Token>)
    ensures Feed(r, a + b + c + d + e) == Feed(Feed(Feed(Feed(Feed(r, a), b), c), d), e)
  {
    FeedConcat(r, a + b + c + d, e);
    FeedConcat(r, a + b + c, d);
    FeedConcat(r, a + b, c);
    FeedConcat(r, a, b);
  }

  lemma {:induction false} FeedBlank(r: Reader, tokens: seq<Token>)
    requires r == START
    requires forall t :: t in tokens ==>
               t.Prolog? || (t.Text? && Blank(t.text)) || (t.Open? && t.name != "array" && t.name != "string")
    ensures Feed(r, tokens) == r
  {
    if tokens != [] {
      assert tokens[0] in tokens;
      FeedBlank(r, tokens[1..]);
    }
  }

  /** Reading a rendered plist yields the arguments that survive trimming, for any label, even "ProgramArguments". */
  lemma ReadsWhatWasRendered(c: Config)
    ensures Result(Feed(START, Plist(c))) == Some(Survivors(ProgramArguments(c)))
  {
    DocumentComesFirst(c);
    ReadsDocument(c, Plist(c)[|Document(c)|..]);
    assert Plist(c) == Document(c) + Plist(c)[|Document(c)|..];
  }

  /** What follows the arguments does not matter. */
  lemma ReadsDocument(c: Config, rest: seq<Token>)
    ensures Result(Feed(START, Document(c) + rest)) == Some(Survivors(ProgramArguments(c)))
  {
    var head, args := Head(c.service), ArgumentTokens(ProgramArguments(c));
    var end := [Text("\n" + "  "), Close("array")];
    FeedConcat(START, Document(c), rest);
    FeedConcat(START, head + args, end);
    FeedConcat(START, head, args);
    FeedHead(c.service);
    FeedArguments(ProgramArguments(c));
    BlankLeads();
    var ready := Reading(false, true, false, Survivors(ProgramArguments(c)));
    assert end[1..] == [Close("array")];
    FeedOne(ready, Close("array"));
    FeedFound(ready.args, rest);
  }

  // ----- The configuration recovered -----

  /** launchdConfigArgs: the config file wins over the root. */
  datatype Selector = NoSelector | ConfigFile(path: string) | Root(path: string)

  function ConfigArgs(s: Selector): seq<string> {
    match s
    case NoSelector => []
    case ConfigFile(path) => ["--config-file", path]
    case Root(path) => ["--root", path]
  }

  function Recovered(s: Selector): (string, string) {
    match s
    case NoSelector => ("", "")
    case ConfigFile(path) => ("", path)
    case Root(path) => (path, "")
  }

  function Scan(args: seq<string>, i: nat, root: string, configFile: string): (string, string)
    decreases |args| - i
  {
    if i >= |args| || args[i] == "serve" then (root, configFile)
    else if args[i] == "--root" && i + 1 < |args| then Scan(args, i + 2, args[i + 1], configFile)
    else if args[i] == "--config-file" && i + 1 < |args| then Scan(args, i + 2, root, args[i + 1])
    else Scan(args, i + 1, root, configFile)
  }

  /** launchdConfigFromProgramArguments. */
  method ConfigFromProgramArguments(args: seq<string>) returns (root: string, configFile: string)
    ensures (root, configFile) == Scan(args, 1, "", "")
  {
    root, configFile := "", "";
    var i := 1;
    while i < |args|
      invariant 1 <= i
      invariant Scan(args, i, root, configFile) == Scan(args, 1, "", "")
    {
      if args[i] == "--root" {
        if i + 1 < |args| {
          root := args[i + 1];
          i := i + 1;
        }
      } else if args[i] == "--config-file" {
        if i + 1 < |args| {
          configFile := args[i + 1];
          i := i + 1;
        }
      } else if args[i] == "serve" {
        return;
      }
      i := i + 1;
    }
  }

  lemma Keywords()
    ensures Trim("serve") == "serve" && Trim("remote") == "remote" &&
            Trim("--root") == "--root" && Trim("--config-file") == "--config-file"
  {
    var serve, remote := "serve", "remote";
    TrimFixedIff(serve);
    TrimFixedIff(remote);
    TrimFixedIff("--root");
    TrimFixedIff("--config-file");
    assert serve[0] == 's' && serve[4] == 'e' && remote[0] == 'r' && remote[5] == 'e';
  }

  /** The selector as the reader sees it. */
  function TrimmedSelector(s: Selector): Selector {
    match s
    case NoSelector => NoSelector
    case ConfigFile(path) => ConfigFile(Trim(path))
    case Root(path) => Root(Trim(path))
  }

  lemma SurvivorsOfSelector(binPath: string, s: Selector)
    requires !Blank(binPath) && (s.NoSelector? || !Blank(s.path))
    ensures Survivors([binPath] + ConfigArgs(s)) == [Trim(binPath)] + ConfigArgs(TrimmedSelector(s))
  {
    SurvivorsAppend([], binPath);
    assert [] + [binPath] == [binPath];
    match s
    case NoSelector => assert [binPath] + ConfigArgs(s) == [binPath];
    case ConfigFile(path) => SurvivorsOfPair(binPath, "--config-file", path);
    case Root(path) => SurvivorsOfPair(binPath, "--root", path);
  }

  lemma SurvivorsOfPair(binPath: string, flag: string, path: string)
    requires !Blank(binPath) && !Blank(path) && (flag == "--config-file" || flag == "--root")
    ensures Survivors([binPath] + [flag, path]) == [Trim(binPath)] + [flag, Trim(path)]
  {
    Keywords();
    SurvivorsAppend([], binPath);
    SurvivorsAppend([binPath], flag);
    SurvivorsAppend([binPath] + [flag], path);
    assert [] + [binPath] == [binPath] && [binPath] + [flag, path] == [binPath] + [flag] + [path];
  }

  lemma SurvivorsOfService(binPath: string, s: Selector)
    requires !Blank(binPath) && (s.NoSelector? || !Blank(s.path))
    ensures Survivors([binPath] + ConfigArgs(s) + ["serve", "remote"])
         == [Trim(binPath)] + ConfigArgs(TrimmedSelector(s)) + ["serve", "remote"]
  {
    SurvivorsOfSelector(binPath, s);
    Keywords();
    var front := [binPath] + ConfigArgs(s);
    SurvivorsAppend(front, "serve");
    SurvivorsAppend(front + ["serve"], "remote");
    assert front + ["serve", "remote"] == front + ["serve"] + ["remote"];
  }

  lemma SurvivorsAppend(front: seq<string>, last: string)
    ensures Survivors(front + [last]) == Survivors(front) + if Blank(last) then [] else [Trim(last)]
  {
    assert (front + [last])[..|front|] == front;
  }

  /** The round trip: from the rendered plist of any service with nonblank arguments the doctor reads back the selector,
      exactly as it was given if and only if its value has no surrounding white space. The value may itself be
      "serve", "--root" or "--config-file". */
  lemma RoundTrip(c: Config, s: Selector)
    requires c.args == ConfigArgs(s) && !Blank(c.binPath) && (s.NoSelector? || !Blank(s.path))
    ensures Result(Feed(START, Plist(c)))
         == Some([Trim(c.binPath)] + ConfigArgs(TrimmedSelector(s)) + ["serve", "remote"])
    ensures Scan(Result(Feed(START, Plist(c))).value, 1, "", "") == Recovered(s) <==> s.NoSelector? || Trimmed(s.path)
  {
    ReadsWhatWasRendered(c);
    SurvivorsOfService(c.binPath, s);
    ScanService(Trim(c.binPath), TrimmedSelector(s));
    if !s.NoSelector? { TrimFixedIff(s.path); }
  }

  /** A root with a space in front comes back without it. */
  lemma SpaceIsLost(c: Config)
    requires c.args == ConfigArgs(Root(" /data")) && !Blank(c.binPath)
    ensures Result(Feed(START, Plist(c))).Some?
    ensures Scan(Result(Feed(START, Plist(c))).value, 1, "", "") == ("/data", "")
  {
    var path := " /data";
    assert path[0] == ' ' && path[1..] == "/data" && "/data"[0] == '/' && "/data"[4] == 'a';
    assert TrimLeft("/data") == "/data" && TrimRight("/data") == "/data";
    assert TrimLeft(path) == TrimLeft(path[1..]);
    assert Trim(path) == "/data";
    ReadsWhatWasRendered(c);
    SurvivorsOfService(c.binPath, Root(path));
    ScanService(Trim(c.binPath), Root("/data"));
  }

  lemma ScanService(binPath: string, s: Selector)
    ensures Scan([binPath] + ConfigArgs(s) + ["serve", "remote"], 1, "", "") == Recovered(s)
  {
    var args := [binPath] + ConfigArgs(s) + ["serve", "remote"];
    if s.NoSelector? {
      assert args[1] == "serve";
    } else {
      assert args[1] == ConfigArgs(s)[0] && args[2] == s.path && args[3] == "serve";
    }
  }

  // ----- What stands in the document -----

  /** The document says that `key` is the string `value`. */
  ghost predicate SaysString(tokens: seq<Token>, key: string, value: string) {
    exists before, lead, after ::
      tokens == before + [Open("key"), Text(key), Close("key"), Text(lead), Open("string")] + Content(value)
                + [Close("string")] + after
  }

  /** The document says that `key` is set. */
  ghost predicate SaysTrue(tokens: seq<Token>, key: string) {
    exists before, lead, after ::
      tokens == before + [Open("key"), Text(key), Close("key"), Text(lead), Open("true"), Close("true")] + after
  }

  lemma PairSays(before: seq<Token>, indent: string, key: string, value: string, after: seq<Token>)
    requires key != ""
    ensures SaysString(before + Pair(indent, key, value) + after, key, value)
  {
    var lead := [Text("\n" + indent)];
    assert before + Pair(indent, key, value) + after
        == before + lead + [Open("key"), Text(key), Close("key"), Text("\n" + indent), Open("string")] + Content(value)
           + [Close("string")] + after;
  }

  lemma SetSays(before: seq<Token>, key: string, after: seq<Token>)
    requires key != ""
    ensures SaysTrue(before + Set(key) + after, key)
  {
    var lead := [Text("\n" + "  ")];
    assert before + Set(key) + after
        == before + lead + [Open("key"), Text(key), Close("key"), Text("\n" + "  "), Open("true"), Close("true")]
           + after;
  }

  lemma EndSays(before: seq<Token>, outPath: string, errPath: string)
    ensures SaysString(Ended(before, outPath, errPath), "StandardOutPath", outPath)
    ensures SaysString(Ended(before, outPath, errPath), "StandardErrorPath", errPath)
    ensures SaysTrue(Ended(before, outPath, errPath), "RunAtLoad")
    ensures SaysTrue(Ended(before, outPath, errPath), "KeepAlive")
  {
    var run, alive := Set("RunAtLoad"), Set("KeepAlive");
    var out, err := Pair("  ", "StandardOutPath", outPath), Pair("  ", "StandardErrorPath", errPath);
    var end := [Text("\n"), Close("dict"), Text("\n"), Close("plist"), Text("\n")];
    FiveParts(before, run, alive, out, err, end);
    SetSays(before, "RunAtLoad", alive + out + err + end);
    SetSays(before + run, "KeepAlive", out + err + end);
    PairSays(before + run + alive, "  ", "StandardOutPath", outPath, err + end);
    PairSays(before + run + alive + out, "  ", "StandardErrorPath", errPath, end);
  }

  lemma FiveParts(before: seq<Token>, a: seq<Token>, b: seq<Token>, c: seq<Token>, d: seq<Token>, e: seq<Token>)
    ensures before + a + b + c + d + e == before + a + (b + c + d + e)
    ensures before + a + b + c + d + e == before + a + b + (c + d + e)
    ensures before + a + b + c + d + e == before + a + b + c + (d + e)
  {}

  /** The document is a dictionary entry for each thing asked for: label, search path, flags, and each log path under
      its own key. */
  lemma PlistSays(c: Config)
    ensures SaysString(Plist(c), "Label", c.service) && SaysString(Plist(c), "PATH", DEFAULT_PATH)
    ensures SaysString(Plist(c), "StandardOutPath", c.outPath) && SaysString(Plist(c), "StandardErrorPath", c.errPath)
    ensures SaysTrue(Plist(c), "RunAtLoad") && SaysTrue(Plist(c), "KeepAlive")
  {
    EndSays(WithEnvironment(Document(c)), c.outPath, c.errPath);
    LabelComesFirst(c);
    PrefixSays(Opening(), "  ", "Label", c.service, Plist(c));
    PathFollows(c);
    PrefixSays(PathStart(c), "    ", "PATH", DEFAULT_PATH, Plist(c));
  }

  lemma PrefixSays(before: seq<Token>, indent: string, key: string, value: string, tokens: seq<Token>)
    requires key != "" && before + Pair(indent, key, value) <= tokens
    ensures SaysString(tokens, key, value)
  {
    var front := before + Pair(indent, key, value);
    PairSays(before, indent, key, value, tokens[|front|..]);
    assert tokens == front + tokens[|front|..];
  }

  ghost function PathStart(c: Config): seq<Token> {
    Document(c) + Element("  ", "key", "EnvironmentVariables") + [Text("\n" + "  "), Open("dict")]
  }

  lemma PathFollows(c: Config)
    ensures PathStart(c) + Pair("    ", "PATH", DEFAULT_PATH) <= Plist(c)
  {
    assert PathStart(c) + Pair("    ", "PATH", DEFAULT_PATH) <= WithEnvironment(Document(c));
  }

  lemma LabelComesFirst(c: Config)
    ensures Opening() + Pair("  ", "Label", c.service) <= Plist(c)
  {
    DocumentComesFirst(c);
    var key, value := Element("  ", "key", "Label"), Element("  ", "string", c.service);
    assert Opening() + Pair("  ", "Label", c.service) == Opening() + key + value;
    assert Opening() + key + value <= Head(c.service) <= Document(c);
  }

  // ----- What the reader does with other documents -----

  /** Only the array after the key counts: without the key nothing is ever found. */
  lemma {:induction false} NothingWithoutKey(r: Reader, tokens: seq<Token>)
    requires r.Reading? && !r.sawProgramArguments && !r.inProgramArguments
    requires forall t :: t in tokens && t.Text? ==> Trim(t.text) != "ProgramArguments"
    ensures Result(Feed(r, tokens)) == None
    decreases tokens
  {
    if tokens != [] {
      assert tokens[0] in tokens;
      NothingWithoutKey(Step(r, tokens[0]), tokens[1..]);
    }
  }

  /** In the array only the text of string elements counts, and the array's end is the answer. */
  lemma ArrayStep(args: seq<string>, t: Token)
    ensures Step(Reading(false, true, false, args), t) ==
      if t == Open("string") then Reading(false, true, true, args)
      else if t == Close("array") then Found(args)
      else if t.Text? && Trim(t.text) == "ProgramArguments" then Reading(true, true, false, args)
      else Reading(false, true, false, args)
    ensures t.Text? && Trim(t.text) != "" ==>
              Step(Reading(false, true, true, args), t) == Reading(false, true, true, args + [Trim(t.text)])
    ensures t == Close("string") ==> Step(Reading(false, true, true, args), t) == Reading(false, true, false, args)
    ensures t == Close("array") ==> Result(Step(Reading(false, true, false, args), t)) == Some(args)
  {
    assert Trim("") == "";
  }

  // ----- What the configuration is read from -----

  /** Nothing counts from "serve" on, nor a selector at the very end; the last selector before that wins. */
  lemma ScanStops(args: seq<string>, i: nat, root: string, configFile: string)
    ensures i < |args| && args[i] == "serve" ==> Scan(args, i, root, configFile) == (root, configFile)
    ensures i + 1 == |args| && (args[i] == "--root" || args[i] == "--config-file") ==>
              Scan(args, i, root, configFile) == (root, configFile)
    ensures i + 1 < |args| && args[i] == "--root" ==>
              Scan(args, i, root, configFile) == Scan(args, i + 2, args[i + 1], configFile)
    ensures i + 1 < |args| && args[i] == "--config-file" ==>
              Scan(args, i, root, configFile) == Scan(args, i + 2, root, args[i + 1])
    ensures i < |args| && args[i] != "serve" && args[i] != "--root" && args[i] != "--config-file" ==>
              Scan(args, i, root, configFile) == Scan(args, i + 1, root, configFile)
  {}

  // ----- Which selector is written -----

  datatype RootOptions = RootOptions(configFile: string, root: string)

  /** launchdConfigArgs: a config file given on the command line goes first, then a root, then the environment's config
      file, then its root; blank values do not count. `abs` makes a path absolute if it can. */
  method LaunchdConfigArgs(options: Option<RootOptions>, envConfigFile: string, envRoot: string, abs: string -> string)
    returns (args: seq<string>)
    ensures options.None? ==> args == []
    ensures options.Some? && !Blank(options.value.configFile) ==>
              args == ["--config-file", abs(Trim(options.value.configFile))]
    ensures options.Some? && Blank(options.value.configFile) && !Blank(options.value.root) ==>
              args == ["--root", abs(Trim(options.value.root))]
    ensures options.Some? && Blank(options.value.configFile) && Blank(options.value.root) ==>
              args == if !Blank(envConfigFile) then ["--config-file", abs(Trim(envConfigFile))]
                      else if !Blank(envRoot) then ["--root", abs(Trim(envRoot))] else []
    ensures exists s: Selector ::
              args == ConfigArgs(s) && (s.NoSelector? || exists v :: !Blank(v) && s.path == abs(Trim(v)))
  {
    if options.None? {
      assert ConfigArgs(NoSelector) == [];
      return [];
    }
    var value := Trim(options.value.configFile);
    if value != "" {
      assert ConfigArgs(ConfigFile(abs(value))) == ["--config-file", abs(value)];
      return ["--config-file", abs(value)];
    }
    value := Trim(options.value.root);
    if value != "" {
      assert ConfigArgs(Root(abs(value))) == ["--root", abs(value)];
      return ["--root", abs(value)];
    }
    value := Trim(envConfigFile);
    if value != "" {
      assert ConfigArgs(ConfigFile(abs(value))) == ["--config-file", abs(value)];
      return ["--config-file", abs(value)];
    }
    value := Trim(envRoot);
    if value != "" {
      assert ConfigArgs(Root(abs(value))) == ["--root", abs(value)];
      return ["--root", abs(value)];
    }
    assert ConfigArgs(NoSelector) == [];
    return [];
  }

  lemma RecoveredIs(path: string)
    ensures Recovered(Root(path)) == (path, "") && Recovered(ConfigFile(path)) == ("", path)
    ensures Recovered(NoSelector) == ("", "") && ConfigArgs(NoSelector) == []
    ensures ConfigArgs(Root(path)) == ["--root", path] && ConfigArgs(ConfigFile(path)) == ["--config-file", path]
  {}
}
