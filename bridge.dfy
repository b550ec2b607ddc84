/** The string helpers of `PstnBridge` in src/bridge.ts: bridge user IDs,
    the `tel-` suffix, the module allow-list and the control-room command
    line. */
module Bridge {
  import opened Wrappers
  import opened JsString

  /** `a` is `b` with some elements left out, in the same order. */
  ghost predicate Subsequence<T>(a: seq<T>, b: seq<T>)
    decreases |b|
  {
    a == [] || (b != [] && ((a[0] == b[0] && Subsequence(a[1..], b[1..])) || Subsequence(a, b[1..])))
  }

  /** `xs.filter(p)`: what is kept satisfies `p`, is exactly the elements of
      `xs` that do, each as often as in `xs`, and keeps their order. */
  function Keep<T(==, !new)>(xs: seq<T>, p: T -> bool): (r: seq<T>)
    ensures forall i | 0 <= i < |r| :: p(r[i])
    ensures forall x :: x in r <==> x in xs && p(x)
    ensures forall x :: multiset(r)[x] == if p(x) then multiset(xs)[x] else 0
    ensures Subsequence(r, xs)
    decreases |xs|
  {
    if xs == [] then []
    else
      var rest := Keep(xs[1..], p);
      assert xs == [xs[0]] + xs[1..];
      assert multiset(xs) == multiset{xs[0]} + multiset(xs[1..]);
      if p(xs[0]) then
        assert ([xs[0]] + rest)[1..] == rest;
        assert multiset([xs[0]] + rest) == multiset{xs[0]} + multiset(rest);
        [xs[0]] + rest
      else rest
  }

  /** Filtering with a test every element passes changes nothing. */
  lemma {:induction false} KeepAll<T(!new)>(xs: seq<T>, p: T -> bool)
    requires forall i | 0 <= i < |xs| :: p(xs[i])
    ensures Keep(xs, p) == xs
    decreases |xs|
  {
    if xs != [] {
      KeepAll(xs[1..], p);
    }
  }

  /** Every sequence is a subsequence of itself. */
  lemma {:induction false} SubsequenceOfSelf<T>(xs: seq<T>)
    ensures Subsequence(xs, xs)
    decreases |xs|
  {
    if xs != [] {
      SubsequenceOfSelf(xs[1..]);
    }
  }

  /** Reading `.length` or `.includes` of a null `permissions.modules`. */
  datatype Fault = NullModules

  /** `listModules`: the module table's keys, in table order, filtered to
      the allow-list when that is non-empty. */
  function ListModules(registry: seq<string>, allow: Option<seq<string>>): (r: Result<seq<string>, Fault>)
    ensures r.Failure? <==> allow.None?
    ensures allow == Some([]) ==> r == Success(registry)
    ensures r.Success? ==> Subsequence(r.value, registry)
    ensures r.Success? && allow.value != [] ==> forall m :: m in r.value <==> m in registry && m in allow.value
  {
    if allow.None? then Failure(NullModules)
    else if allow.value != [] then Success(Keep(registry, (m: string) => m in allow.value))
    else
      SubsequenceOfSelf(registry);
      Success(registry)
  }

  /** `getModule`: null (None) when the allow-list is non-empty and leaves
      the name out, otherwise the module table's entry for the name. */
  function GetModule(registry: seq<string>, allow: Option<seq<string>>, n: string): (r: Result<Option<string>, Fault>)
    ensures r.Failure? <==> allow.None?
    ensures allow.Some? && allow.value != [] && n !in allow.value ==> r == Success(None)
    ensures allow.Some? && (allow.value == [] || n in allow.value) ==> r == Success(if n in registry then Some(n) else None)
  {
    if allow.None? then Failure(NullModules)
    else if allow.value != [] && n !in allow.value then Success(None)
    else if n in registry then Success(Some(n))
    else Success(None)
  }

  /** A module can be fetched exactly when it is listed. */
  lemma ModulesAgree(registry: seq<string>, allow: Option<seq<string>>, n: string)
    requires allow.Some?
    ensures GetModule(registry, allow, n) == Success(Some(n)) <==> n in ListModules(registry, allow).value
  {
  }

  /** The keys of the module table of src/modules/index.ts. */
  const ModuleTable: seq<string> := ["twilio"]

  /** The shipped table: with an empty allow-list `twilio` is the one module
      listed and fetched; an allow-list without it disables it. */
  lemma ShippedModules(other: string)
    requires other != "twilio"
    ensures ListModules(ModuleTable, Some([])) == Success(["twilio"])
    ensures GetModule(ModuleTable, Some([]), "twilio") == Success(Some("twilio"))
    ensures GetModule(ModuleTable, Some([]), other) == Success(None)
    ensures ListModules(ModuleTable, Some([other])) == Success([])
    ensures GetModule(ModuleTable, Some([other]), "twilio") == Success(None)
  {
    assert "twilio" !in [other];
  }

  /** `getTelSuffix`: `tel-` followed by the number without its first
      character (the `+` of an E.164 number). */
  function GetTelSuffix(number: string): string {
    "tel-" + Slice(number, 1)
  }

  /** The decode of `getSuffixDisplayName`: a `tel-` suffix stands for `+`
      and the rest of the suffix. */
  function TelNumber(suffix: string): Option<string> {
    if StartsWith(suffix, "tel-") then Some("+" + Slice(suffix, 4)) else None
  }

  /** The suffix of a number starting with `+` decodes to that number, and
      every `tel-` suffix is the suffix of the number it decodes to. */
  lemma TelRoundTrip(number: string, suffix: string)
    ensures StartsWith(GetTelSuffix(number), "tel-")
    ensures StartsWith(number, "+") ==> TelNumber(GetTelSuffix(number)) == Some(number)
    ensures TelNumber(suffix).Some? ==> GetTelSuffix(TelNumber(suffix).value) == suffix
  {
    assert ("tel-" + Slice(number, 1))[..4] == "tel-";
    assert ("tel-" + Slice(number, 1))[4..] == Slice(number, 1);
    if StartsWith(number, "+") {
      assert number == "+" + number[1..];
    }
    if StartsWith(suffix, "tel-") {
      assert ("+" + Slice(suffix, 4))[1..] == Slice(suffix, 4);
      assert suffix == suffix[..4] + suffix[4..];
    }
  }

  /** `getBridgeUserId`: for `@localpart:server`, where the server is
      everything after the first `:`, the localpart without the bridge
      prefix; None (null) when the MXID does not start with `@`, the server
      differs or the localpart lacks the prefix. */
  function GetBridgeUserId(mxid: string, homeserverName: string, prefix: string): (r: Option<string>)
    ensures !StartsWith(mxid, "@") ==> r.None?
    ensures r.Some? ==> ':' !in r.value
  {
    if !StartsWith(mxid, "@") then None
    else
      var parts := Split(Slice(mxid, 1), ':');
      var localpart := parts[0];
      if Join(parts[1..], ":") != homeserverName then None
      else if StartsWith(localpart, prefix) then
        assert Slice(localpart, |prefix|) == localpart[|prefix|..];
        assert forall i | 0 <= i < |localpart| - |prefix| :: localpart[|prefix|..][i] == localpart[|prefix| + i];
        Some(Slice(localpart, |prefix|))
      else None
  }

  /** Round trip: the user ID of a bridge user is the suffix it was made
      from, for any server name, even one holding `:`. */
  lemma BridgeUserIdRoundTrip(prefix: string, s: string, hs: string)
    requires ':' !in prefix && ':' !in s
    ensures GetBridgeUserId("@" + prefix + s + ":" + hs, hs, prefix) == Some(s)
  {
    var mxid := "@" + prefix + s + ":" + hs;
    var local := prefix + s;
    assert mxid[..1] == "@";
    assert Slice(mxid, 1) == local + [':'] + hs;
    assert ':' !in local by {
      assert forall i | 0 <= i < |local| :: local[i] == if i < |prefix| then prefix[i] else s[i - |prefix|];
    }
    SplitAtFirst(local, hs, ':');
    JoinSplit(hs, ':');
    var parts := Split(Slice(mxid, 1), ':');
    assert parts[0] == local && parts[1..] == Split(hs, ':');
    assert local[..|prefix|] == prefix && local[|prefix|..] == s;
  }

  /** Conversely, an ID is only returned for the MXID built from it, or,
      when the server name is empty, for one without any `:`. */
  lemma BridgeUserIdOnlyFrom(mxid: string, hs: string, prefix: string)
    requires GetBridgeUserId(mxid, hs, prefix).Some?
    ensures var s := GetBridgeUserId(mxid, hs, prefix).value;
            mxid == "@" + prefix + s + ":" + hs || (hs == "" && mxid == "@" + prefix + s)
  {
    var s := GetBridgeUserId(mxid, hs, prefix).value;
    var rest := Slice(mxid, 1);
    var parts := Split(rest, ':');
    JoinSplit(rest, ':');
    assert mxid == "@" + rest;
    assert parts[0] == prefix + s;
    if |parts| == 1 {
      assert rest == parts[0];
    } else {
      assert parts == [parts[0]] + parts[1..];
      assert rest == parts[0] + ":" + Join(parts[1..], ":");
    }
  }

  /** `parts.map((a) => a.trim())`. */
  function TrimEach(parts: seq<string>): (r: seq<string>)
    ensures |r| == |parts| && forall i | 0 <= i < |parts| :: r[i] == Trim(parts[i])
    decreases |parts|
  {
    if parts == [] then [] else [Trim(parts[0])] + TrimEach(parts[1..])
  }

  /** The tokens of a control message: the message trimmed, split on single
      spaces, each part trimmed and empty parts dropped. Each token is
      non-empty, holds no space, every non-empty trimmed part is a token as
      often as it is a part, and the tokens keep the message's order. */
  function Tokenise(text: string): (tokens: seq<string>)
    ensures forall i | 0 <= i < |tokens| :: tokens[i] != [] && ' ' !in tokens[i]
    ensures forall t :: multiset(tokens)[t] == if t != [] then multiset(TrimEach(Split(Trim(text), ' ')))[t] else 0
    ensures Subsequence(tokens, TrimEach(Split(Trim(text), ' ')))
  {
    var raw := Split(Trim(text), ' ');
    NoSpaceAfterTrim(raw);
    DropEmpty(TrimEach(raw))
  }

  /** `filter((a) => a)` on strings: the non-empty ones, each as often as
      it occurs, in order. */
  function DropEmpty(parts: seq<string>): (r: seq<string>)
    ensures forall i | 0 <= i < |r| :: r[i] != [] && r[i] in parts
    ensures forall t :: multiset(r)[t] == if t != [] then multiset(parts)[t] else 0
    ensures Subsequence(r, parts)
  {
    Keep(parts, (t: string) => t != [])
  }

  /** Trimming parts that hold no space leaves parts that hold none. */
  lemma NoSpaceAfterTrim(raw: seq<string>)
    requires forall i | 0 <= i < |raw| :: ' ' !in raw[i]
    ensures forall i | 0 <= i < |TrimEach(raw)| :: ' ' !in TrimEach(raw)[i]
  {
    var parts := TrimEach(raw);
    forall i | 0 <= i < |parts|
      ensures ' ' !in parts[i]
    {
      assert parts[i] == Trim(raw[i]);
    }
  }

  /** The first and last characters of a join of non-empty parts. */
  lemma {:induction false} JoinEnds(parts: seq<string>, sep: string)
    requires |parts| >= 1 && forall i | 0 <= i < |parts| :: parts[i] != []
    ensures var j := Join(parts, sep);
            j != [] && j[0] == parts[0][0] && j[|j| - 1] == parts[|parts| - 1][|parts[|parts| - 1]| - 1]
    decreases |parts|
  {
    if |parts| > 1 {
      JoinEnds(parts[1..], sep);
      var rest := Join(parts[1..], sep);
      assert Join(parts, sep) == parts[0] + sep + rest;
    }
  }

  /** The word holds no whitespace character. */
  predicate Word(w: string) {
    w != [] && forall k | 0 <= k < |w| :: !IsWhitespace(w[k])
  }

  /** A word is its own trim and holds no space. */
  lemma WordUnchanged(w: string)
    requires Word(w)
    ensures Trim(w) == w && ' ' !in w
  {
    TrimUnchanged(w);
    assert IsWhitespace(' ');
  }

  /** Words joined by spaces neither start nor end with whitespace. */
  lemma TrimJoinedWords(words: seq<string>)
    requires forall i | 0 <= i < |words| :: Word(words[i])
    ensures Trim(Join(words, " ")) == Join(words, " ")
  {
    if words != [] {
      JoinEnds(words, " ");
      var last := words[|words| - 1];
      assert Word(words[0]) && Word(last);
      TrimUnchanged(Join(words, " "));
    }
  }

  /** A message that is its own trim and splits into parts that are their
      own trims and non-empty tokenises into those parts. */
  lemma TokeniseUnchanged(text: string, parts: seq<string>)
    requires Trim(text) == text && Split(text, ' ') == parts && TrimEach(parts) == parts
    requires forall i | 0 <= i < |parts| :: parts[i] != []
    ensures Tokenise(text) == parts
  {
    KeepAll(parts, (t: string) => t != []);
  }

  lemma {:induction false} TrimEachUnchanged(parts: seq<string>)
    requires forall i | 0 <= i < |parts| :: Trim(parts[i]) == parts[i]
    ensures TrimEach(parts) == parts
  {
    assert forall i | 0 <= i < |parts| :: TrimEach(parts)[i] == parts[i];
  }

  /** Round trip: words without whitespace, joined by single spaces, are
      tokenised back into the same words. */
  lemma TokeniseJoin(words: seq<string>)
    requires forall i | 0 <= i < |words| :: Word(words[i])
    ensures Tokenise(Join(words, " ")) == words
  {
    if words != [] {
      TrimJoinedWords(words);
      forall i | 0 <= i < |words|
        ensures ' ' !in words[i] && Trim(words[i]) == words[i]
      {
        WordUnchanged(words[i]);
      }
      SplitJoin(words, ' ');
      TrimEachUnchanged(words);
      TokeniseUnchanged(Join(words, " "), words);
    }
  }

  /** What a command handler did: the replies it pushed, and whether it then
      threw. */
  datatype HandlerRun = HandlerRun(pushed: seq<string>, threw: bool)

  /** The keys of the `commands` object. */
  const Commands: set<string> := {"help", "status", "link", "unlink", "dial", "name"}

  const HelpLines: seq<string> := [
    "Available commands:",
    "help - Print this message",
    "status - Print bridge status",
    "link <module> [args...] - Link to a phone number using <module>",
    "unlink - Remove the phone number link",
    "dial <number...> - Start chatting with a phone number",
    "name <number> [name...] - Set or clear a name for a number. The number can't have spaces."
  ]

  const InternalError := "Internal error processing command"

  /** The `help` handler: the command list, then the enabled modules. With a
      null allow-list `listModules` throws before the last line is pushed. */
  function HelpRun(registry: seq<string>, allow: Option<seq<string>>): (h: HandlerRun)
    ensures |h.pushed| >= |HelpLines| && h.pushed[..|HelpLines|] == HelpLines
    ensures h.threw <==> allow.None?
    ensures h.threw ==> h.pushed == HelpLines
    ensures !h.threw ==> h.pushed == HelpLines + ["\nAvailable modules: " + Join(ListModules(registry, allow).value, ", ")]
  {
    match ListModules(registry, allow)
    case Success(ms) => HandlerRun(HelpLines + ["\nAvailable modules: " + Join(ms, ", ")], false)
    case Failure(_) => HandlerRun(HelpLines, true)
  }

  /** `args[0]` as the template literal prints it. */
  function CommandName(args: seq<string>): string {
    if args == [] then "undefined" else args[0]
  }

  /** The replies after a handler run: what it pushed, then the internal
      error when it threw. */
  function Replies(h: HandlerRun): seq<string> {
    h.pushed + (if h.threw then [InternalError] else [])
  }

  /** The dispatch of `processControlMessage`: the handler named by the
      first token runs on the other tokens; an unknown command, or an empty
      message, is reported and `help` runs instead. The handlers other than
      `help` talk to the homeserver and the database, so what they do is
      the parameter `run`. */
  method RunCommand(args: seq<string>, registry: seq<string>, allow: Option<seq<string>>,
                    run: (string, seq<string>) -> HandlerRun)
    returns (replies: seq<string>)
    ensures if args == [] || args[0] !in Commands then
              replies == ["Unrecognized command: " + CommandName(args)] + Replies(HelpRun(registry, allow))
            else if args[0] == "help" then replies == Replies(HelpRun(registry, allow))
            else replies == Replies(run(args[0], args[1..]))
    ensures args == [] || args[0] !in Commands || args[0] == "help" ==> replies != []
  {
    replies := [];
    var known := args != [] && args[0] in Commands;
    if !known {
      replies := ["Unrecognized command: " + CommandName(args)];
    }
    var h: HandlerRun;
    if !known || args[0] == "help" {
      h := HelpRun(registry, allow);
    } else {
      h := run(args[0], args[1..]);
    }
    replies := replies + Replies(h);
  }

  /** `processControlMessage`: the message is tokenised and dispatched, and
      a notice holding the replies joined by newlines is sent exactly when
      there are replies. */
  method ProcessControlMessage(text: string, registry: seq<string>, allow: Option<seq<string>>,
                               run: (string, seq<string>) -> HandlerRun)
    returns (replies: seq<string>, notice: Option<string>)
    ensures notice.Some? <==> replies != []
    ensures notice.Some? ==> notice.value == Join(replies, "\n")
    ensures var args := Tokenise(text);
            if args == [] || args[0] !in Commands then
              replies == ["Unrecognized command: " + CommandName(args)] + Replies(HelpRun(registry, allow)) && notice.Some?
            else if args[0] == "help" then replies == Replies(HelpRun(registry, allow)) && notice.Some?
            else replies == Replies(run(args[0], args[1..]))
  {
    var args := Tokenise(text);
    replies := RunCommand(args, registry, allow, run);
    notice := if |replies| > 0 then Some(Join(replies, "\n")) else None;
  }
}
