/**
 The default command of cmd/root.go: list the local branches by full reference name,
 reduce every listed line to its last `/`-separated component with the quotes removed,
 let the user pick one, and check it out unless the pick is empty.

 The interactive prompt is not modelled: a `Prompt` value stands for it and maps the
 items shown to what the user did. `log.Fatal` is modelled as a final outcome.
 */
module Root {
  import opened GoStrings
  import opened Lines
  import opened GitCommands

  const LIST_REF_ARGS: seq<string> := ["branch", "--list", "--format=\"%(refname)\""]

  /** What the selection prompt returned: the chosen item, or an error (the user aborted). */
  datatype Selection = Selected(item: string) | Aborted

  /** The prompt: the items shown, in order, to the user's answer. */
  type Prompt = seq<string> -> Selection

  /** How a run ends. `ListingFailed` and `CheckoutFailed` are the two `log.Fatal` exits. */
  datatype Outcome =
    | ListingFailed
    | PromptFailed
    | NothingSelected
    | CheckedOut(branch: string)
    | CheckoutFailed(branch: string)

  /** The branch name shown for one listed line: the text after its last `/`, quotes removed.
      `Split` never returns an empty list, so taking its last part is always defined. */
  function RefName(line: string): (name: string)
    ensures '/' !in name && '"' !in name
  {
    var parts := Split(line, '/');
    RemoveAll(parts[|parts| - 1], '"')
  }

  /** The branch list that the full-refname listing output normalises to. */
  function RefBranchNames(output: string): (names: seq<string>)
  {
    Collect(Split(output, '\n'), RefName)
  }

  /** The loop of `Run` that builds the items of the prompt. */
  method BranchNames(output: string) returns (names: seq<string>)
    ensures names == RefBranchNames(output)
  {
    var branches := Split(output, '\n');
    names := [];
    for i := 0 to |branches|
      invariant names == Collect(branches[..i], RefName)
    {
      var v := branches[i];
      if v != "" {
        var branchParts := Split(v, '/');
        var branchName := branchParts[|branchParts| - 1];
        names := names + [RemoveAll(branchName, '"')];
      }
      assert branches[..i + 1][..i] == branches[..i];
    }
    assert branches[..|branches|] == branches;
  }

  /** `rootCmd.Run`. `calls` lists the argument vectors passed to `git`, in order:
      the listing, then a checkout only when the user picked a non-empty item. */
  method Run(git: Git, prompt: Prompt) returns (o: Outcome, calls: seq<seq<string>>)
    ensures !git(LIST_REF_ARGS).success ==> o == ListingFailed && calls == [LIST_REF_ARGS]
    ensures git(LIST_REF_ARGS).success ==>
      match prompt(RefBranchNames(git(LIST_REF_ARGS).output))
      case Aborted => o == PromptFailed && calls == [LIST_REF_ARGS]
      case Selected(item) =>
        if item == "" then o == NothingSelected && calls == [LIST_REF_ARGS]
        else
          calls == [LIST_REF_ARGS, CheckoutArgs(item)] &&
          o == (if git(CheckoutArgs(item)).success then CheckedOut(item) else CheckoutFailed(item))
    ensures 1 <= |calls| <= 2 && calls[0] == LIST_REF_ARGS
    ensures |calls| == 2 <==> o.CheckedOut? || o.CheckoutFailed?
    ensures |calls| == 2 ==> o.branch != "" && calls[1] == CheckoutArgs(o.branch)
  {
    calls := [LIST_REF_ARGS];
    var listing := git(LIST_REF_ARGS);
    if !listing.success {
      return ListingFailed, calls;
    }
    var filteredBranches := BranchNames(listing.output);
    var selection := prompt(filteredBranches);
    if selection.Aborted? {
      return PromptFailed, calls;
    }
    var result := selection.item;
    if result != "" {
      calls := calls + [CheckoutArgs(result)];
      if !git(CheckoutArgs(result)).success {
        return CheckoutFailed(result), calls;
      }
      return CheckedOut(result), calls;
    }
    return NothingSelected, calls;
  }

  // ---------------------------------------------------------------- properties of the listing

  /** The name is the text that follows the last `/` of the line (all of the line when it
      has none), with the quotes removed. */
  lemma {:induction false} RefNameAfterLastSlash(line: string, i: nat)
    requires i <= |line|
    requires i == 0 || line[i - 1] == '/'
    requires '/' !in line[i..]
    ensures RefName(line) == RemoveAll(line[i..], '"')
  {
    SplitLast(line, '/');
    var parts := Split(line, '/');
    var tail := parts[|parts| - 1];
    var j := |line| - |tail|;
    assert i == j;
    assert line[i..] == tail;
  }

  /** One element per non-empty line, in order, each the reduced form of its line. */
  lemma RefBranchNamesAt(output: string)
    ensures var segs := Split(output, '\n');
      var ps := NonEmptyPositions(segs);
      var names := RefBranchNames(output);
      |names| == |ps| &&
      forall k :: 0 <= k < |ps| ==>
        names[k] == RefName(segs[ps[k]]) && '/' !in names[k] && '"' !in names[k]
  {
    CollectAt(Split(output, '\n'), RefName);
  }

  /** The list is empty exactly when the output is empty or holds nothing but newlines. */
  lemma RefBranchNamesEmpty(output: string)
    ensures RefBranchNames(output) == [] <==> forall i :: 0 <= i < |output| ==> output[i] == '\n'
  {
    CollectLinesEmpty(output, RefName);
  }

  /** What the listing command prints for local branches `names`: each full reference name
      inside the quotes of the format string, one per line. */
  function RefListing(names: seq<string>): (output: string)
  {
    if names == [] then "" else "\"refs/heads/" + names[0] + "\"\n" + RefListing(names[1..])
  }

  /** A listed line of a branch whose name has no `/` reduces to that name. */
  lemma RefNameOfListedLine(name: string)
    requires '/' !in name && '"' !in name
    ensures RefName("\"refs/heads/" + name + "\"") == name
  {
    var line := "\"refs/heads/" + name + "\"";
    assert line[12..] == name + "\"";
    assert line[11] == '/';
    RefNameAfterLastSlash(line, 12);
    RemoveAllConcat(name, "\"", '"');
    RemoveAllUnchanged(name, '"');
  }

  /** The normaliser recovers, in git's order and with repetitions kept, the names of
      branches whose names contain no `/`, quote or newline. */
  lemma {:induction false} RefListingRoundTrip(names: seq<string>)
    requires forall k :: 0 <= k < |names| ==>
      '/' !in names[k] && '"' !in names[k] && '\n' !in names[k]
    ensures RefBranchNames(RefListing(names)) == names
  {
    if names == [] {
      assert Split("", '\n') == [""];
      assert [""][..0] == [];
    } else {
      var line := "\"refs/heads/" + names[0] + "\"";
      var rest := RefListing(names[1..]);
      assert RefListing(names) == line + ['\n'] + rest;
      assert '\n' !in line;
      SplitAfterSep(line, rest, '\n');
      assert Split(RefListing(names), '\n') == [line] + Split(rest, '\n');
      CollectConcat([line], Split(rest, '\n'), RefName);
      assert Collect([line], RefName) == [RefName(line)] by {
        assert [line][..0] == [];
      }
      RefNameOfListedLine(names[0]);
      RefListingRoundTrip(names[1..]);
      assert [names[0]] + names[1..] == names;
    }
  }

  /** A branch whose name has a `/` is shown by its last component only. */
  lemma NestedBranchShownByLastComponent(line: string)
    requires line == "\"refs/heads/feature/x\""
    ensures RefName(line) == "x"
  {
    assert line[20..] == "x\"";
    RefNameAfterLastSlash(line, 20);
    RemoveAllConcat("x", "\"", '"');
  }

  /** Lines are tested for emptiness before they are reduced, so a listed line whose
      reference ends in `/`, or one made only of quotes, gives an empty name. */
  lemma EmptyNames(slash: string, quotes: string)
    requires slash == "\"refs/heads/\"" && quotes == "\"\""
    ensures RefName(slash) == "" && RefName(quotes) == ""
  {
    assert slash[11] == '/' && slash[12..] == "\"";
    RefNameAfterLastSlash(slash, 12);
    RemoveAllOnly("\"", '"');
    RefNameAfterLastSlash(quotes, 0);
    RemoveAllOnly(quotes, '"');
  }
}
