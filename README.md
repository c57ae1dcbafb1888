# gbl branch-list normalisation, in Dafny

gbl is a command-line helper around `git`: it lists the local branches, lets the user pick one
from a prompt, and checks it out (or deletes it). This project models the part of it that is
logic rather than glue: turning the text that `git branch --list` prints into the list of branch
names shown to the user, and shaping the results of the `git` runs into values or errors.

- `go_strings.dfy` (module `GoStrings`): Go's `strings.Split` on a one-character separator and
  `strings.ReplaceAll` with an empty replacement, plus `strings.Join`, which the code does not
  call, as `Split`'s inverse; with their laws (split/join round trips in both directions, the last segment is the text after the last
  separator, deletion keeps every other character in order).
- `lines.dfy` (module `Lines`): the loop shape both listings share. `Collect` keeps the non-empty
  newline segments in order and transforms each; `NonEmptyPositions` is an independent
  description of "the k-th non-empty segment", and `CollectAt` proves the two agree.
- `git_commands.dfy` (module `GitCommands`, cmd/gitCommands.go): `gitBranchListShort` as a
  loop-based method proved equal to `ShortBranchNames`, and `gitBranchDelete` and `gitCheckout`
  as functions over the process result.
- `root.dfy` (module `Root`, cmd/root.go): the full-refname loop of the default command as a
  method proved equal to `RefBranchNames`, and the command itself (`Run`), which checks out the
  picked branch only when the pick is non-empty.

Running `git` is a parameter: a `Git` value maps the argument vector after `git` to a
`ProcessResult` (output text and success flag), so the contracts say which command line each
operation runs. The selection prompt is a parameter of the same kind (`Prompt`).

The quotes the normalisers delete come from the listing commands themselves: the format
argument `--format="%(refname:short)"` reaches `git` with its quotes, since no shell removes
them, so `git` prints every name between quotes (`Listing` and `RefListing` describe that text).

Behaviour of the code worth stating explicitly:

- The emptiness test runs before quotes are deleted, so a line made only of quotes (`""`) yields
  an empty name: the listing `"main"`, `"dev"`, `""` gives `["main", "dev", ""]`
  (`GitCommands.ListingExample`). Each name is free of quotes, but the list may hold empty names.
- No whitespace is trimmed: spaces and `\r` pass through (`RemoveAllKeepsOthers`).
- When the default command cannot list branches it calls `log.Fatal` with the process error,
  not with the output, and it reads standard output only; `Run` ends in `ListingFailed`.
- The default command reduces every reference to its last `/` component, so a branch named
  `feature/x` is offered as `x` (`Root.NestedBranchShownByLastComponent`).
- Both normalisers delete every `"`, including one that belongs to a branch name (git's
  reference-name rules allow it), so a branch named `a"b` is offered as `ab`. This is why
  `ListingRoundTrip` and `RefListingRoundTrip` require names without quotes.

## Model

| member | source | states |
|---|---|---|
| GoStrings.Split | cmd/gitCommands.go:17 | n separators give n+1 segments (so `""` gives one segment, and the list is never empty) and no segment contains the separator |
| GoStrings.SplitJoin | cmd/gitCommands.go:17 | joining the segments with the separator gives back the original text |
| GoStrings.JoinSplit | cmd/gitCommands.go:17 | splitting the join of separator-free parts gives back exactly those parts |
| GoStrings.SplitLast | cmd/root.go:49-50 | the last segment is a separator-free suffix that is either the whole text or immediately preceded by the separator |
| GoStrings.SplitOnlySeps | cmd/root.go:44 | a text made only of separators splits into empty segments only |
| GoStrings.JoinOfEmpties | cmd/root.go:44 | joining empty parts yields only separators (the converse direction) |
| GoStrings.RemoveAll | cmd/gitCommands.go:22 | the result has no quote, is shorter by the number of quotes, and has no character the input lacked |
| GoStrings.RemoveAllConcat | cmd/gitCommands.go:22 | deletion distributes over concatenation, so the kept characters keep their order |
| GoStrings.RemoveAllKeepsOthers | cmd/gitCommands.go:22 | every character other than the quote occurs as often after deletion as before (whitespace and `\r` kept) |
| GoStrings.RemoveAllUnchanged | cmd/gitCommands.go:22 | deletion leaves a text unchanged if and only if it contains no quote |
| GoStrings.RemoveAllIdempotent | cmd/gitCommands.go:22 | deleting quotes twice is deleting them once |
| GoStrings.RemoveAllOnly | cmd/gitCommands.go:22 | a text made only of quotes is deleted entirely |
| Lines.NonEmptyPositions | cmd/gitCommands.go:20-21 | the indices of exactly the non-empty segments, strictly increasing |
| Lines.CollectAt | cmd/gitCommands.go:18-25 | the loop result has one element per non-empty segment, and element k is the transform of the k-th non-empty segment |
| Lines.CollectEmpty | cmd/gitCommands.go:20-21 | the loop result is empty if and only if every segment is empty |
| Lines.CollectHas | cmd/gitCommands.go:21-23 | every non-empty segment contributes its transformed copy |
| Lines.CollectConcat | cmd/root.go:47-53 | the loop over a concatenation is the concatenation of the loops |
| Lines.CollectLinesEmpty | cmd/gitCommands.go:17-21 | the loop over the newline segments of an output is empty if and only if the output is empty or only newlines |
| GitCommands.ShortName | cmd/gitCommands.go:22 | a listed line becomes a name without quotes, shorter by exactly its quote count |
| GitCommands.BranchListShort | cmd/gitCommands.go:8-28 | runs `git branch --list --format="%(refname:short)"`; on failure returns an `Error` whose message is the output, on success the normalised list `ShortBranchNames` |
| GitCommands.FromProcess | cmd/gitCommands.go:36-41 | an error exactly when the run failed; the output verbatim as value or as error message |
| GitCommands.DeleteArgs | cmd/gitCommands.go:31-35 | the vector `branch`, flag, branch name, with flag `-D` exactly when forced and `-d` otherwise |
| GitCommands.CheckoutArgs | cmd/gitCommands.go:45 | the vector `checkout`, item |
| GitCommands.BranchDelete | cmd/gitCommands.go:30-42 | runs the delete vector; an error exactly on failure, carrying the output; otherwise the output verbatim |
| GitCommands.Checkout | cmd/gitCommands.go:44-50 | runs `git checkout item`; an error exactly on failure, carrying the output; otherwise the output verbatim |
| GitCommands.ShortBranchNamesAt | cmd/gitCommands.go:17-25 | one name per non-empty line, in input order; name k is the k-th non-empty line with its quotes removed |
| GitCommands.ShortBranchNamesUnquoted | cmd/gitCommands.go:22 | no name contains a quote, and removing quotes from a name leaves it unchanged |
| GitCommands.ShortBranchNamesEmpty | cmd/gitCommands.go:17-21 | the list is empty if and only if the output is empty or only newlines |
| GitCommands.QuoteOnlyLineYieldsEmptyName | cmd/gitCommands.go:21-22 | a non-empty line of quotes only produces an empty name in the list |
| GitCommands.Unquote | cmd/gitCommands.go:22 | a quoted name without inner quotes becomes the name |
| GitCommands.ListingRoundTrip | cmd/gitCommands.go:9-27 | for any branch names without quotes or newlines, normalising git's quoted listing of them gives exactly those names, in order, duplicates kept |
| GitCommands.ListingExample | cmd/gitCommands.go:17-25 | the listing `"main"`, `"dev"`, `""` gives `main`, `dev` and an empty name |
| Root.RefName | cmd/root.go:49-51 | the name shown for a line contains neither `/` nor a quote |
| Root.BranchNames | cmd/root.go:43-53 | the loop builds exactly `RefBranchNames` of the output |
| Root.Run | cmd/root.go:38-76 | runs the refname listing; a failed listing or an aborted prompt ends the run; a checkout is run (and its failure is fatal) only when the picked item is non-empty, with the prompt shown the normalised list |
| Root.RefNameAfterLastSlash | cmd/root.go:49-51 | the name is the text after the last `/` of the line (the whole line when it has none) with quotes removed |
| Root.RefBranchNamesAt | cmd/root.go:44-53 | one name per non-empty line, in order; name k is the reduced k-th non-empty line and has no `/` or quote |
| Root.RefBranchNamesEmpty | cmd/root.go:44-48 | the list is empty if and only if the output is empty or only newlines |
| Root.RefNameOfListedLine | cmd/root.go:49-51 | a quoted `refs/heads/` line of a branch without `/` reduces to the branch name |
| Root.RefListingRoundTrip | cmd/root.go:39-53 | for any branch names without `/`, quotes or newlines, normalising git's listing of their full reference names gives exactly those names, in order |
| Root.NestedBranchShownByLastComponent | cmd/root.go:49-51 | the line `"refs/heads/feature/x"` is shown as `x` |
| Root.EmptyNames | cmd/root.go:48-51 | the listed lines `"refs/heads/"` and `""` each give an empty name, because emptiness is tested before reduction |

## Left out

- Process invocation (`exec.Command`, `CombinedOutput`, `Output`, `Run`) and exit statuses: a `Git` function stands for them; the model does not distinguish combined output from standard output only, and `Run`'s checkout ignores the output as the code does.
- The `promptui` selection prompt (its label, size and rendering): a `Prompt` function stands for it; that it only returns one of the shown items is not assumed.
- The "Prompt failed" message and `log.Fatal` termination: modelled as the outcomes `PromptFailed`, `ListingFailed` and `CheckoutFailed`.
- cobra command wiring, `Execute`, `init` flag registration and viper configuration loading in `initConfig`: command-line and configuration plumbing that touches the environment and the filesystem.
- The `Error` type's definition and `Error()` method, the bulk delete/add/remove flows, the file listing and staging operations and the not-a-repository check: their code lies outside cmd/gitCommands.go and cmd/root.go and is not part of this model; `Error` is a datatype with the one `Message` field the two files use.
- Go's distinction between a nil slice and an empty slice: a failed listing is `Err`, an empty listing `Ok([])`.
- GoStrings.Split: only one-character separators, the only kind the code passes; multi-character and empty separators are not modelled.
- GoStrings.RemoveAll: only `strings.ReplaceAll` with a one-character pattern and an empty replacement, the only use in the code.
- Go strings are bytes while the model uses characters; the separators and the quote are ASCII, which UTF-8 never uses inside a multi-byte character, so the results agree.
