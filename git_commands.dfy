/**
 The git operations of cmd/gitCommands.go: list the local branches by short name,
 delete a branch, check out a branch. Each one runs `git` once and either hands back
 the result or wraps the combined output, verbatim, in an `Error`.

 Running `git` is not modelled: a `Git` value stands for the process invoker and maps
 the argument vector that follows the program name `git` to what the process produced.
 */
module GitCommands {
  import opened GoStrings
  import opened Lines

  /** The error value the operations return: the failed process's output as its message. */
  datatype Error = Error(Message: string)

  /** What one run of `git` produced: its combined standard output and standard error,
      and whether it exited successfully (and could be started at all). */
  datatype ProcessResult = ProcessResult(output: string, success: bool)

  /** A Go `(value, error)` pair in which exactly one half is meaningful. */
  datatype Result<T> = Ok(value: T) | Err(error: Error)

  /** The process invoker: arguments after `git` to the result of the run. */
  type Git = seq<string> -> ProcessResult

  const LIST_SHORT_ARGS: seq<string> := ["branch", "--list", "--format=\"%(refname:short)\""]

  /** A branch name as printed by the short-name listing, with every `"` deleted. */
  function ShortName(line: string): (name: string)
    ensures '"' !in name
    ensures |name| == |line| - Count(line, '"')
  {
    RemoveAll(line, '"')
  }

  /** The branch list that the short-name listing output normalises to. */
  function ShortBranchNames(output: string): (names: seq<string>)
  {
    Collect(Split(output, '\n'), ShortName)
  }

  /** `gitBranchListShort`: on failure the combined output becomes the error message;
      on success the output is split on newlines, empty segments are skipped, and the
      others are kept in order with their quotes removed. */
  method BranchListShort(git: Git) returns (r: Result<seq<string>>)
    ensures var p := git(LIST_SHORT_ARGS);
      if p.success then r == Ok(ShortBranchNames(p.output)) else r == Err(Error(p.output))
  {
    var p := git(LIST_SHORT_ARGS);
    if !p.success {
      return Err(Error(p.output));
    }
    var branches := Split(p.output, '\n');
    var filtered: seq<string> := [];
    for i := 0 to |branches|
      invariant filtered == Collect(branches[..i], ShortName)
    {
      var v := branches[i];
      if v != "" {
        var branch := RemoveAll(v, '"');
        filtered := filtered + [branch];
      }
      assert branches[..i + 1][..i] == branches[..i];
    }
    assert branches[..|branches|] == branches;
    return Ok(filtered);
  }

  /** The result of a command whose output is the value: the output verbatim on success,
      an `Error` carrying exactly that output otherwise. */
  function FromProcess(p: ProcessResult): (r: Result<string>)
    ensures r.Err? <==> !p.success
    ensures r.Ok? ==> r.value == p.output
    ensures r.Err? ==> r.error.Message == p.output
  {
    if p.success then Ok(p.output) else Err(Error(p.output))
  }

  /** The arguments of `gitBranchDelete`: `-D` exactly when forced, else `-d`. */
  function DeleteArgs(branch: string, force: bool): (args: seq<string>)
    ensures |args| == 3 && args[0] == "branch" && args[2] == branch
    ensures args[1] == "-D" <==> force
    ensures args[1] == "-d" <==> !force
  {
    var deleteFlag := if force then "-D" else "-d";
    ["branch", deleteFlag, branch]
  }

  /** The arguments of `gitCheckout`. */
  function CheckoutArgs(item: string): (args: seq<string>)
    ensures |args| == 2 && args[0] == "checkout" && args[1] == item
  {
    ["checkout", item]
  }

  /** `gitBranchDelete`: one `git branch -d|-D <branch>` run, its output or its failure. */
  function BranchDelete(branch: string, force: bool, git: Git): (r: Result<string>)
    ensures var p := git(DeleteArgs(branch, force));
      (r.Err? <==> !p.success) &&
      (r.Ok? ==> r.value == p.output) &&
      (r.Err? ==> r.error == Error(p.output))
  {
    FromProcess(git(DeleteArgs(branch, force)))
  }

  /** `gitCheckout`: one `git checkout <item>` run, its output or its failure. */
  function Checkout(item: string, git: Git): (r: Result<string>)
    ensures var p := git(CheckoutArgs(item));
      (r.Err? <==> !p.success) &&
      (r.Ok? ==> r.value == p.output) &&
      (r.Err? ==> r.error == Error(p.output))
  {
    FromProcess(git(CheckoutArgs(item)))
  }

  // ---------------------------------------------------------------- properties of the listing

  /** One element per non-empty segment, in order: element `k` is the `k`-th non-empty
      segment with its quotes removed and nothing else changed. */
  lemma ShortBranchNamesAt(output: string)
    ensures var segs := Split(output, '\n');
      var ps := NonEmptyPositions(segs);
      var names := ShortBranchNames(output);
      |names| == |ps| &&
      forall k :: 0 <= k < |ps| ==> names[k] == RemoveAll(segs[ps[k]], '"')
  {
    CollectAt(Split(output, '\n'), ShortName);
  }

  /** No returned name contains a quote, and removing quotes again changes nothing. */
  lemma ShortBranchNamesUnquoted(output: string)
    ensures forall k :: 0 <= k < |ShortBranchNames(output)| ==>
      '"' !in ShortBranchNames(output)[k] &&
      RemoveAll(ShortBranchNames(output)[k], '"') == ShortBranchNames(output)[k]
  {
    var names := ShortBranchNames(output);
    ShortBranchNamesAt(output);
    forall k | 0 <= k < |names|
      ensures '"' !in names[k] && RemoveAll(names[k], '"') == names[k]
    {
      RemoveAllUnchanged(names[k], '"');
    }
  }

  /** The list is empty exactly when the output is empty or holds nothing but newlines. */
  lemma ShortBranchNamesEmpty(output: string)
    ensures ShortBranchNames(output) == [] <==> forall i :: 0 <= i < |output| ==> output[i] == '\n'
  {
    CollectLinesEmpty(output, ShortName);
  }

  /** A line made only of quotes is not empty when it is tested, so it yields an empty name. */
  lemma QuoteOnlyLineYieldsEmptyName(output: string, j: nat)
    requires j < |Split(output, '\n')|
    requires Split(output, '\n')[j] != ""
    requires forall i :: 0 <= i < |Split(output, '\n')[j]| ==> Split(output, '\n')[j][i] == '"'
    ensures "" in ShortBranchNames(output)
  {
    var segs := Split(output, '\n');
    CollectHas(segs, ShortName, j);
    RemoveAllOnly(segs[j], '"');
  }

  /** What the listing command prints for branches `names`, in git's order: each name
      inside the quotes of the format string, one per line. */
  function Listing(names: seq<string>): (output: string)
  {
    if names == [] then "" else "\"" + names[0] + "\"\n" + Listing(names[1..])
  }

  /** Removing the quotes around a quoted name gives the name back. */
  lemma Unquote(name: string)
    requires '"' !in name
    ensures ShortName("\"" + name + "\"") == name
  {
    RemoveAllConcat("\"" + name, "\"", '"');
    RemoveAllConcat("\"", name, '"');
    RemoveAllUnchanged(name, '"');
  }

  /** The normaliser recovers the branch names from git's listing of them, in git's order
      and with repetitions kept, provided no name contains a quote or a newline. */
  lemma {:induction false} ListingRoundTrip(names: seq<string>)
    requires forall k :: 0 <= k < |names| ==> '"' !in names[k] && '\n' !in names[k]
    ensures ShortBranchNames(Listing(names)) == names
  {
    if names == [] {
      assert Split("", '\n') == [""];
      assert [""][..0] == [];
    } else {
      var line := "\"" + names[0] + "\"";
      var rest := Listing(names[1..]);
      assert Listing(names) == line + ['\n'] + rest;
      assert '\n' !in line;
      SplitAfterSep(line, rest, '\n');
      assert Split(Listing(names), '\n') == [line] + Split(rest, '\n');
      CollectConcat([line], Split(rest, '\n'), ShortName);
      assert Collect([line], ShortName) == [ShortName(line)] by {
        assert [line][..0] == [];
      }
      Unquote(names[0]);
      ListingRoundTrip(names[1..]);
      assert [names[0]] + names[1..] == names;
    }
  }

  /** A repository with branches `main` and `dev`, and a quote-only line: that last line
      survives as an empty name instead of being dropped. */
  lemma ListingExample(output: string)
    requires output == "\"main\"\n\"dev\"\n\"\"\n"
    ensures ShortBranchNames(output) == ["main", "dev", ""]
  {
    var names := ["main", "dev", ""];
    assert Listing(names) == output;
    ListingRoundTrip(names);
  }
}
