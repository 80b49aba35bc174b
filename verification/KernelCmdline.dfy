/** The SR-IOV installer's edit of /etc/default/grub: every GRUB_CMDLINE_LINUX_DEFAULT line gets the
    required kernel parameters it lacks. */
module KernelCmdlines {
  import opened Text

  const PREFIX := "GRUB_CMDLINE_LINUX_DEFAULT="

  datatype Error = Malformed | Io
  datatype Result<T> = Ok(value: T) | Err(error: Error)
  datatype Merge = Merge(line: string, changed: bool)

  // ---- One line ----------------------------------------------------------------------------

  predicate Matches(line: string) {
    PREFIX <= line
  }

  /** The value has two quotes of the same kind around it. */
  predicate Quoted(line: string)
    requires Matches(line)
  {
    var raw := line[|PREFIX|..];
    |raw| >= 2 && (raw[0] == '"' || raw[0] == '\'') && raw[|raw| - 1] == raw[0]
  }

  function Quote(line: string): char
    requires Matches(line) && Quoted(line)
  {
    line[|PREFIX|]
  }

  /** What is between the quotes. */
  function Inner(line: string): string
    requires Matches(line) && Quoted(line)
  {
    var raw := line[|PREFIX|..];
    raw[1..|raw| - 1]
  }

  function Tokens(line: string): seq<string>
    requires Matches(line) && Quoted(line)
  {
    Words(Inner(line))
  }

  function WithTokens(quote: char, tokens: seq<string>): string {
    PREFIX + [quote] + JoinWords(tokens) + [quote]
  }

  /** The required tokens that `tokens` lacks, each once, in their order. */
  function Added(tokens: seq<string>, required: seq<string>): seq<string>
    decreases |required|
  {
    if required == [] then []
    else if required[0] in tokens then Added(tokens, required[1..])
    else [required[0]] + Added(tokens + [required[0]], required[1..])
  }

  predicate HasAll(tokens: seq<string>, required: seq<string>) {
    forall t :: t in required ==> t in tokens
  }

  predicate AllWords(tokens: seq<string>) {
    forall t :: t in tokens ==> Word(t)
  }

  function Merged(line: string, required: seq<string>): string
    requires Matches(line) && Quoted(line)
  {
    if HasAll(Tokens(line), required) then line
    else WithTokens(Quote(line), Tokens(line) + Added(Tokens(line), required))
  }

  /** One line: without the variable it stays; without two equal quotes around the value it is an error; and
      otherwise the words between the quotes are joined with the missing ones by single spaces, unless none is
      missing. The loop extends the token list and the set of tokens seen. */
  method MergeKernelCmdline(line: string, required: seq<string>) returns (r: Result<Merge>)
    ensures !("GRUB_CMDLINE_LINUX_DEFAULT=" <= line) ==> r == Ok(Merge(line, false))
    ensures "GRUB_CMDLINE_LINUX_DEFAULT=" <= line ==>
              var raw := line[|"GRUB_CMDLINE_LINUX_DEFAULT="|..];
              if |raw| < 2 || raw[0] !in "\"'" || raw[|raw| - 1] != raw[0] then r == Err(Malformed)
              else
                var words := Words(raw[1..|raw| - 1]);
                if forall t :: t in required ==> t in words then r == Ok(Merge(line, false))
                else r == Ok(Merge("GRUB_CMDLINE_LINUX_DEFAULT=" + [raw[0]] + JoinWords(words + Added(words, required))
                                   + [raw[0]], true))
    ensures !Matches(line) ==> r == Ok(Merge(line, false))
    ensures Matches(line) && !Quoted(line) ==> r == Err(Malformed)
    ensures Matches(line) && Quoted(line) ==>
              r == Ok(Merge(Merged(line, required), !HasAll(Tokens(line), required)))
  {
    if !(PREFIX <= line) {
      return Ok(Merge(line, false));
    }
    var raw := line[|PREFIX|..];
    if |raw| < 2 {
      return Err(Malformed);
    }
    var quote := raw[0];
    if quote != '"' && quote != '\'' {
      return Err(Malformed);
    }
    if raw[|raw| - 1] != quote {
      return Err(Malformed);
    }
    var items, changed := AddMissing(Words(raw[1..|raw| - 1]), required);
    if !changed {
      return Ok(Merge(line, false));
    }
    return Ok(Merge(PREFIX + [quote] + JoinWords(items) + [quote], true));
  }

  method AddMissing(tokens: seq<string>, required: seq<string>) returns (items: seq<string>, changed: bool)
    ensures items == tokens + Added(tokens, required)
    ensures changed <==> !HasAll(tokens, required)
  {
    items, changed := tokens, false;
    var present := set item | item in items;
    for k := 0 to |required|
      invariant forall item :: item in present <==> item in items
      invariant items + Added(items, required[k..]) == tokens + Added(tokens, required)
      invariant tokens <= items && (!changed ==> items == tokens)
      invariant changed <==> !HasAll(tokens, required[..k])
    {
      var item := required[k];
      assert required[k..][1..] == required[k + 1..];
      assert required[..k + 1] == required[..k] + [item];
      if item !in present {
        assert items + ([item] + Added(items + [item], required[k + 1..]))
               == items + [item] + Added(items + [item], required[k + 1..]);
        items := items + [item];
        present := present + {item};
        changed := true;
      }
    }
    assert required[..|required|] == required;
  }

  /** Adding completes the list and invents nothing. */
  lemma {:induction false} AddedCompletes(tokens: seq<string>, required: seq<string>)
    ensures HasAll(tokens + Added(tokens, required), required)
    ensures forall t :: t in Added(tokens, required) ==> t in required && t !in tokens
    decreases |required|
  {
    if required != [] {
      var rest := required[1..];
      assert required == [required[0]] + rest;
      if required[0] in tokens {
        AddedCompletes(tokens, rest);
      } else {
        AddedCompletes(tokens + [required[0]], rest);
        assert tokens + [required[0]] + Added(tokens + [required[0]], rest) == tokens + Added(tokens, required);
      }
    }
  }

  /** Required tokens are added in their order, unless they are there or required before. */
  lemma {:induction false} AddedInOrder(tokens: seq<string>, required: seq<string>, last: string)
    ensures Added(tokens, []) == []
    ensures Added(tokens, required + [last])
            == Added(tokens, required) + if last in tokens || last in required then [] else [last]
    decreases |required|
  {
    if required == [] {
      assert [last][1..] == [];
    } else {
      var rest := required[1..];
      assert (required + [last])[1..] == rest + [last];
      assert required == [required[0]] + rest;
      if required[0] in tokens {
        AddedInOrder(tokens, rest, last);
      } else {
        AddedInOrder(tokens + [required[0]], rest, last);
      }
    }
  }

  /** No token is added twice. */
  lemma {:induction false} AddedOnce(tokens: seq<string>, required: seq<string>, i: nat, j: nat)
    requires i < j < |Added(tokens, required)|
    ensures Added(tokens, required)[i] != Added(tokens, required)[j]
    decreases |required|
  {
    if required[0] in tokens {
      AddedOnce(tokens, required[1..], i, j);
    } else {
      var more := tokens + [required[0]];
      if i > 0 {
        AddedOnce(more, required[1..], i - 1, j - 1);
      } else {
        AddedCompletes(more, required[1..]);
        assert Added(tokens, required)[j] in Added(more, required[1..]);
      }
    }
  }

  lemma {:induction false} NothingToAdd(tokens: seq<string>, required: seq<string>)
    requires HasAll(tokens, required)
    ensures Added(tokens, required) == []
    decreases |required|
  {
    if required != [] {
      assert required[0] in required;
      NothingToAdd(tokens, required[1..]);
    }
  }

  lemma AllTokensAreWords(line: string, required: seq<string>)
    requires Matches(line) && Quoted(line) && AllWords(required)
    ensures AllWords(Tokens(line) + Added(Tokens(line), required))
  {
    AddedCompletes(Tokens(line), required);
    WordsAreWords(Inner(line));
  }

  lemma QuotedTokens(quote: char, tokens: seq<string>)
    requires quote == '"' || quote == '\''
    ensures Matches(WithTokens(quote, tokens)) && Quoted(WithTokens(quote, tokens))
    ensures Tokens(WithTokens(quote, tokens)) == Words(JoinWords(tokens))
  {
    var line := WithTokens(quote, tokens);
    assert line[|PREFIX|..] == [quote] + JoinWords(tokens) + [quote];
    assert Inner(line) == JoinWords(tokens);
  }

  /** A merged line keeps its old tokens in order in front, and holds every required one. */
  lemma MergedTokens(line: string, required: seq<string>)
    requires Matches(line) && Quoted(line) && AllWords(required)
    ensures Matches(Merged(line, required)) && Quoted(Merged(line, required))
    ensures Tokens(Merged(line, required)) == Tokens(line) + Added(Tokens(line), required)
    ensures HasAll(Tokens(Merged(line, required)), required)
  {
    var before := Tokens(line);
    var all := before + Added(before, required);
    AddedCompletes(before, required);
    if HasAll(before, required) {
      NothingToAdd(before, required);
    } else {
      QuotedTokens(Quote(line), all);
      AllTokensAreWords(line, required);
      WordsJoin(all);
    }
  }

  lemma LackedForever(line: string, required: seq<string>)
    requires Matches(line) && Quoted(line) && !AllWords(required)
    ensures !HasAll(Tokens(line), required)
  {
    WordsAreWords(Inner(line));
  }

  /** Merging a merged line changes nothing if and only if every required token is a word: a token
      that is empty or holds white space would be added again by every run. */
  lemma MergeTwice(line: string, required: seq<string>)
    requires Matches(line) && Quoted(line)
    ensures Matches(Merged(line, required)) && Quoted(Merged(line, required))
    ensures HasAll(Tokens(Merged(line, required)), required) <==> AllWords(required)
  {
    QuotedTokens(Quote(line), Tokens(line) + Added(Tokens(line), required));
    if AllWords(required) {
      MergedTokens(line, required);
    } else {
      LackedForever(Merged(line, required), required);
    }
  }

  /** An empty required token is added again and again. */
  lemma BlankTokenExample()
    ensures
      var line := WithTokens('"', []);
      Matches(line) && Quoted(line) && Matches(Merged(line, [""])) && Quoted(Merged(line, [""]))
      && !HasAll(Tokens(Merged(line, [""])), [""])
  {
    var line := WithTokens('"', []);
    QuotedTokens('"', []);
    MergeTwice(line, [""]);
    assert "" in [""] && !Word("");
  }

  // ---- The whole file ----------------------------------------------------------------------

  predicate WellFormed(lines: seq<string>) {
    forall k :: 0 <= k < |lines| && Matches(lines[k]) ==> Quoted(lines[k])
  }

  /** Every matching line holds every required token. */
  predicate Complete(lines: seq<string>, required: seq<string>)
    requires WellFormed(lines)
  {
    forall k :: 0 <= k < |lines| && Matches(lines[k]) ==> HasAll(Tokens(lines[k]), required)
  }

  function MergedLine(line: string, required: seq<string>): string
    requires Matches(line) ==> Quoted(line)
  {
    if Matches(line) then Merged(line, required) else line
  }

  function MergedLines(lines: seq<string>, required: seq<string>): seq<string>
    requires WellFormed(lines)
  {
    seq(|lines|, k requires 0 <= k < |lines| => MergedLine(lines[k], required))
  }

  datatype Rewrite = Rewrite(lines: seq<string>, changed: bool)

  method MergeLines(scanned: seq<string>, required: seq<string>) returns (r: Result<Rewrite>)
    ensures r.Err? ==> r.error == Malformed
    ensures r.Ok? <==> WellFormed(scanned)
    ensures r.Ok? ==> r.value.lines == MergedLines(scanned, required)
    ensures r.Ok? ==> (r.value.changed <==> !Complete(scanned, required))
  {
    var lines: seq<string> := [];
    var updated := false;
    for k := 0 to |scanned|
      invariant WellFormed(scanned[..k]) && lines == MergedLines(scanned[..k], required)
      invariant updated <==> !Complete(scanned[..k], required)
    {
      var merge := MergeKernelCmdline(scanned[k], required);
      if merge.Err? {
        return Err(Malformed);
      }
      assert scanned[..k + 1] == scanned[..k] + [scanned[k]];
      OneMoreLine(scanned[..k], scanned[k], required);
      updated := updated || merge.value.changed;
      lines := lines + [merge.value.line];
    }
    assert scanned[..|scanned|] == scanned;
    return Ok(Rewrite(lines, updated));
  }

  lemma OneMoreLine(lines: seq<string>, line: string, required: seq<string>)
    requires WellFormed(lines) && (Matches(line) ==> Quoted(line))
    ensures WellFormed(lines + [line])
    ensures MergedLines(lines + [line], required) == MergedLines(lines, required) + [MergedLine(line, required)]
    ensures Complete(lines + [line], required)
            <==> Complete(lines, required) && (Matches(line) ==> HasAll(Tokens(line), required))
  {
    var more := lines + [line];
    assert forall k :: 0 <= k < |lines| ==> more[k] == lines[k];
    assert more[|lines|] == line;
  }

  class GrubDefaults {
    var content: string

    constructor (content: string)
      ensures this.content == content
    {
      this.content := content;
    }

    /** Reads line by line and, if some line changed, replaces the file in one step. `readable` and
        `writable` say whether the file system plays along. */
    method EnsureGrubTokens(required: seq<string>, readable: bool, writable: bool) returns (r: Result<bool>)
      modifies this
      ensures !readable ==> r == Err(Io)
      ensures readable && !WellFormed(ScanLines(old(content))) ==> r == Err(Malformed)
      ensures readable && WellFormed(ScanLines(old(content))) ==>
                r == if Complete(ScanLines(old(content)), required) then Ok(false)
                     else if writable then Ok(true)
                     else Err(Io)
      ensures r == Ok(true) ==> content == Unlines(MergedLines(ScanLines(old(content)), required))
      ensures r != Ok(true) ==> content == old(content)
    {
      if !readable {
        return Err(Io);
      }
      var merge := MergeLines(ScanLines(content), required);
      if merge.Err? {
        return Err(merge.error);
      }
      if !merge.value.changed {
        return Ok(false);
      }
      if !writable {
        return Err(Io);
      }
      content := Unlines(merge.value.lines);
      return Ok(true);
    }
  }

  // ---- Reading the file again --------------------------------------------------------------

  lemma {:induction false} ScannedHasNoNewline(s: string)
    ensures forall k :: 0 <= k < |ScanLines(s)| ==> '\n' !in ScanLines(s)[k]
    decreases |s|
  {
    var k := Find(s, '\n');
    if k < |s| {
      ScannedHasNoNewline(s[k + 1..]);
    }
  }

  function DropCRs(lines: seq<string>): seq<string> {
    seq(|lines|, k requires 0 <= k < |lines| => DropCR(lines[k]))
  }

  lemma {:induction false} RescannedLines(lines: seq<string>)
    requires forall k :: 0 <= k < |lines| ==> '\n' !in lines[k]
    ensures ScanLines(Unlines(lines)) == DropCRs(lines)
  {
    if lines != [] {
      RescannedLine(lines[0], Unlines(lines[1..]));
      RescannedLines(lines[1..]);
      assert DropCRs(lines) == [DropCR(lines[0])] + DropCRs(lines[1..]);
    }
  }

  lemma RescannedLine(line: string, rest: string)
    requires '\n' !in line
    ensures ScanLines(line + "\n" + rest) == [DropCR(line)] + ScanLines(rest)
  {
    var s := line + "\n" + rest;
    FindAfter(line, '\n', rest);
    assert s[..|line|] == line && s[|line| + 1..] == rest;
  }

  lemma {:induction false} NoNewlineJoined(tokens: seq<string>)
    requires AllWords(tokens)
    ensures '\n' !in JoinWords(tokens)
  {
    if tokens != [] {
      assert Word(tokens[0]) && IsSpace('\n');
      if |tokens| > 1 {
        NoNewlineJoined(tokens[1..]);
      }
    }
  }

  lemma WithTokensIsOneLine(quote: char, tokens: seq<string>)
    requires (quote == '"' || quote == '\'') && '\n' !in JoinWords(tokens)
    ensures OneLine(WithTokens(quote, tokens))
  {
  }

  lemma MergedIsOneLine(line: string, required: seq<string>)
    requires Matches(line) && Quoted(line) && AllWords(required) && '\n' !in line
    ensures OneLine(Merged(line, required))
  {
    var tokens := Tokens(line) + Added(Tokens(line), required);
    AllTokensAreWords(line, required);
    NoNewlineJoined(tokens);
    if !HasAll(Tokens(line), required) {
      WithTokensIsOneLine(Quote(line), tokens);
    }
  }

  /** What a reader finds in the rewritten file: as many lines; on each matching one its tokens in
      order and then the missing ones; every other line as it was, less a carriage return. */
  lemma RewrittenLine(content: string, required: seq<string>, k: nat)
    requires AllWords(required) && WellFormed(ScanLines(content)) && k < |ScanLines(content)|
    ensures
      var line := ScanLines(content)[k];
      var again := ScanLines(Unlines(MergedLines(ScanLines(content), required)));
      && |again| == |ScanLines(content)|
      && (Matches(line) <==> Matches(again[k]))
      && (!Matches(line) ==> again[k] == DropCR(line))
      && (Matches(line) ==> Quoted(again[k]) && Tokens(again[k]) == Tokens(line) + Added(Tokens(line), required))
  {
    var lines := ScanLines(content);
    MergedHaveNoNewline(content, required);
    RescannedLines(MergedLines(lines, required));
    if Matches(lines[k]) {
      ScannedHasNoNewline(content);
      MergedTokens(lines[k], required);
      MergedIsOneLine(lines[k], required);
    }
  }

  lemma MergedHaveNoNewline(content: string, required: seq<string>)
    requires AllWords(required) && WellFormed(ScanLines(content))
    ensures forall k :: 0 <= k < |ScanLines(content)| ==> '\n' !in MergedLines(ScanLines(content), required)[k]
  {
    ScannedHasNoNewline(content);
    var lines := ScanLines(content);
    forall k | 0 <= k < |lines|
      ensures '\n' !in MergedLines(lines, required)[k]
    {
      if Matches(lines[k]) {
        MergedIsOneLine(lines[k], required);
      }
    }
  }

  /** A second run finds a well-formed file that lacks nothing, so it reports no change. */
  lemma SecondRunChangesNothing(content: string, required: seq<string>)
    requires AllWords(required) && WellFormed(ScanLines(content))
    ensures
      var again := ScanLines(Unlines(MergedLines(ScanLines(content), required)));
      WellFormed(again) && Complete(again, required)
  {
    var again := ScanLines(Unlines(MergedLines(ScanLines(content), required)));
    MergedHaveNoNewline(content, required);
    RescannedLines(MergedLines(ScanLines(content), required));
    forall k | 0 <= k < |again| && Matches(again[k])
      ensures Quoted(again[k]) && HasAll(Tokens(again[k]), required)
    {
      RewrittenLine(content, required, k);
      AddedCompletes(Tokens(ScanLines(content)[k]), required);
    }
  }
}
