# arner: an ARN parser, modelled in Dafny

`arner` turns an Amazon Resource Name such as
`arn:aws:iam::123456789012:user/division_abc/JaneDoe` into a `BetterARN` record:

- partition, service, region and account ID;
- resource type, resource name and path.

`IsARN` accepts a string when it starts with `arn:` and holds at least five colons.
`ParseARN` rejects anything else with the zero record and the invalid-prefix error.
Otherwise it splits the string into at most six `:`-sections, copies sections 1 to 4
into the record, and hands section 5 (the resource part) to a per-service grammar:

- `iam`, `dynamodb` and `ec2` use the slash grammar (`parseSlash`): first `/`-token as
  type, last as name, and the tokens in between as a path wrapped in slashes.
- `s3` uses the bucket grammar (`parseS3`): the first token is the bucket, the rest is
  the path, and a trailing `*` is dropped.
- `lambda`, `rds` and `redshift` use the colon grammar (`parseColon`): first and last
  `:`-token as type and name, with the middle discarded.
- Every other service keeps the resource part whole as the name.

The project has three modules:

- `GoStrings` (`go_strings.dfy`) models the Go `strings` functions the parser calls:
  `HasPrefix`, `Count`, `SplitN`, `Split` and `Join`. It also models `Index`, which
  the parser does not call but on which Go builds `SplitN`. `SplitN` follows Go's
  rule: a count of 0 gives no pieces, a negative count gives all pieces, and a
  positive count gives at most that many, with the last piece keeping the rest.
  Lemmas relate `Split` and `Join` in both directions.
- `Arner` (`arner.dfy`) models `arner.go`: the constants, the `BetterARN` record
  (`arner.go:27-58`, a datatype with the same seven string fields), `IsARN`,
  `ParseARN` with its service dispatch, and the three grammars. Each grammar has two
  lemmas. One says how the fields rebuild the input, for every input. The other says
  what the parser returns for an input built from given fields. `IsARNShape`
  characterises the accepted strings, and `ParseARNOf` says what any of them parses to.
- `ArnerExamples` (`arner_examples.dfy`) holds worked examples as lemmas. Most are
  vectors from `arner_test.go`. Every lemma states what the code gives, including
  `SlashNested`, `SlashNestedTwo` and `S3Folder`, where the test table expects
  something else. `SlashOneToken`, `ServiceCaseSensitive` and `EmptySections` are
  edge cases of the code that are not in the table. Each ARN is written as `arn:`
  and its sections concatenated with `:` between them, and `Spelled` relates that
  to the joined form the parser lemmas use.

Where the test table and the code disagree, the model follows the code:

- The slash grammar's path keeps the wrapping slashes of `arner.go:107`: `/division_abc/`
  and `/division_abc/subdivision_xyz/`. Every nested-path vector in the test table
  (for example `arner_test.go:33` and `arner_test.go:45`) expects the path without
  the outer slashes, as `division_abc/subdivision_xyz` and `division_abc`.
- For `bucket-name/bucket-folder`, `arner.go:118` gives the path `bucket-folder`;
  `arner_test.go:352` expects `""`.
- A slash-grammar resource with no `/` gives the whole resource as both type and name
  (`arner.go:109`), not an empty name.

## Model

| member | source | states |
|---|---|---|
| GoStrings.HasPrefix | arner.go:132 | `strings.HasPrefix`: `s` begins with `prefix`. Characterised by `HasPrefixIff` |
| GoStrings.HasPrefixIff | arner.go:132 | `HasPrefix(s, p)` holds exactly when `s` is `p` followed by something |
| GoStrings.Count | arner.go:132 | `strings.Count` for one character: the number of its occurrences, at most the length of `s`. Characterised by `CountZero` and `CountConcat` |
| GoStrings.CountZero | arner.go:132 | the separator count is 0 exactly when the separator does not occur |
| GoStrings.CountConcat | arner.go:132 | counting separators distributes over concatenation |
| GoStrings.Index | arner.go:70 | the index is -1 exactly when the separator is absent; otherwise it is the first occurrence |
| GoStrings.SplitN | arner.go:70 | count 0 gives no pieces; a negative count gives Count+1 pieces; count n > 0 gives min(n, Count+1) pieces; with a negative count the last piece holds no separator |
| GoStrings.SplitNPieces | arner.go:70 | every piece of `SplitN` but the last is free of the separator |
| GoStrings.Split | arner.go:105 | `Split` gives one more piece than there are separators, so never an empty list |
| GoStrings.SplitFree | arner.go:105 | no piece of `Split` holds the separator |
| GoStrings.Join | arner.go:107 | `strings.Join`: the pieces with the separator between each two. Related to `Split` both ways by `JoinSplit` and `SplitJoin` |
| GoStrings.JoinSplitN | arner.go:70 | joining the pieces of `SplitN` with the separator gives back the string, for any non-zero count |
| GoStrings.JoinSplit | arner.go:107 | `Join(Split(s))` gives back `s` |
| GoStrings.SplitJoin | arner.go:105-107 | splitting the join of separator-free pieces gives back those pieces |
| GoStrings.SplitNJoin | arner.go:70 | `SplitN` with count n, applied to the join of n pieces, gives back the pieces when the first n-1 are separator-free |
| Arner.IsARN | arner.go:131-133 | the string begins with `arn:` and holds at least five `:`. Characterised by `IsARNShape` |
| Arner.ParseSlash | arner.go:104-110 | `parseSlash`: split on `/`, then `SlashFields`. Characterised by `ParseSlashRebuild` for every input and by `ParseSlashOf` for joined tokens |
| Arner.SlashFields | arner.go:106-109 | first token as type, last as name; the path is empty exactly when there are at most two tokens, and otherwise begins and ends with `/` |
| Arner.ParseSlashRebuild | arner.go:104-110 | type and name hold no `/`. With no `/`, both are the whole resource and the path is empty. With one `/`, type + "/" + name is the resource and the path is empty. With more, type + path + name is the resource and the path starts and ends with `/` |
| Arner.ParseSlashOf | arner.go:104-110 | for separator-free tokens, the joined resource parses to the first token, the last token and the middle joined with `/` and wrapped in slashes (empty when there is no middle) |
| Arner.ParseS3 | arner.go:112-122 | `parseS3`: split on `/`, then `S3Fields`. Characterised by `ParseS3Rebuild` and `ParseS3Of` |
| Arner.S3Fields | arner.go:114-121 | first token as bucket; a bucket alone, or followed only by `*`, has an empty path |
| Arner.ParseS3Rebuild | arner.go:112-122 | the bucket holds no `/`. With no `/`, the bucket is the resource and the path is empty. When the last token is not `*`, bucket + "/" + path is the resource. A lone trailing `*` gives an empty path and bucket + "/*". Otherwise bucket + "/" + path + "/*" is the resource |
| Arner.ParseS3Of | arner.go:112-122 | a bucket followed by separator-free folders parses to the bucket and the folders joined by `/`, with or without a trailing `*` |
| Arner.ParseColon | arner.go:124-127 | `parseColon`: split on `:`, then `ColonFields`. Characterised by `ParseColonRebuild` and `ParseColonOf` |
| Arner.ColonFields | arner.go:126 | first and last token as type and name, which coincide for a single token |
| Arner.ParseColonRebuild | arner.go:124-127 | type and name hold no `:`. With no `:`, both are the whole resource. With one, type + ":" + name is the resource. With more, the resource is type, `:`, some middle, `:`, name |
| Arner.ParseColonOf | arner.go:124-127 | `t:n` and `t:mid:n` both parse to `(t, n)` when `t` and `n` hold no `:`, so the middle is discarded |
| Arner.ParseResource | arner.go:72-91 | the exact dispatch: `iam`/`dynamodb`/`ec2` to the slash grammar, `s3` to the bucket grammar with an empty type, `lambda`/`rds`/`redshift` to the colon grammar with an empty path, any other service to the resource part verbatim |
| Arner.ParseARN | arner.go:60-63 | no error exactly when `IsARN` holds; on error the record is the zero record and the error is the invalid-prefix error |
| Arner.ParseARNSections | arner.go:60-101 | an accepted ARN splits into exactly six sections, starting with `arn`, that join back to it; the record holds sections 1 to 4, none with a `:`, and the dispatch result on section 5 |
| Arner.ParseARNRebuild | arner.go:60-101 | an accepted ARN is `arn:` followed by partition, service, region, account and some resource part joined by `:`, and that resource part yields the record's type, name and path |
| Arner.ParseARNOf | arner.go:60-101 | for colon-free partition, service, region and account, the ARN built from them and any resource part parses with no error to exactly those fields and the dispatch result on the resource part |
| Arner.IsARNShape | arner.go:131-133 | `IsARN` holds exactly when the string is `arn:` followed by four colon-free fields and a resource part, joined by `:` |
| ArnerExamples.SlashUser | arner_test.go:13-22 | `user/JohnDoe` parses by the slash grammar to type `user`, name `JohnDoe`, empty path |
| ArnerExamples.SlashNested | arner.go:107 | `user/division_abc/JaneDoe` gives the path `/division_abc/`, wrapped as the code writes it |
| ArnerExamples.SlashFour | arner.go:104-110 | four `/`-free tokens joined with `/` give type, name and the path `/m1/m2/`, with a `/` between the middle tokens |
| ArnerExamples.SlashNestedTwo | arner.go:107 | `user/division_abc/subdivision_xyz/JaneDoe` gives the path `/division_abc/subdivision_xyz/` |
| ArnerExamples.SlashOneToken | arner.go:109 | a resource with no `/` is both type and name |
| ArnerExamples.S3Wildcard | arner_test.go:319-330 | `bucket-name/*` gives bucket `bucket-name` and an empty path |
| ArnerExamples.S3Bucket | arner_test.go:331-342 | a bare bucket gives an empty path |
| ArnerExamples.S3Folder | arner.go:118 | `bucket-name/bucket-folder` gives the path `bucket-folder` |
| ArnerExamples.S3FolderWildcard | arner_test.go:355-366 | `bucket-name/bucket-folder/*` gives the path `bucket-folder` |
| ArnerExamples.ColonFunction | arner_test.go:391-401 | `function:lambda-name` gives type `function` and name `lambda-name` |
| ArnerExamples.IamUser | arner_test.go:12-23 | `arn:aws:iam::123456789012:user/JohnDoe` parses with no error to the expected record |
| ArnerExamples.S3Arn | arner_test.go:319-330 | `arn:aws:s3:::bucket-name/*` parses with no error to bucket `bucket-name`, an empty type and an empty path |
| ArnerExamples.StsVerbatim | arner_test.go:168-179 | an `sts` ARN keeps `assumed-role/Accounting-Role/JaneDoe` whole as the name |
| ArnerExamples.ServiceCaseSensitive | arner.go:73-91 | `IAM` is not `iam`: the resource part is kept whole |
| ArnerExamples.EmptySections | arner.go:131-133 | `arn:::::` is accepted and parses with no error to the all-empty record |
| ArnerExamples.Garbage | arner_test.go:252-255 | `arn:garbage` is rejected with the zero record and the invalid-prefix error |
| ArnerExamples.GarbageNoPrefix | arner_test.go:256-258 | `more:Garbage::::junk` has enough colons but no `arn:` prefix, and is rejected |

## Left out

- `BetterARN.String` (`arner.go:135-139`) is not modelled. It renders the record with `json.Marshal`, an encoder that is not part of this model.
- The error is modelled as the single value `InvalidPrefix`. Its message text `arn: invalid prefix` is not modelled.
- Strings are sequences of characters, and the Go functions are modelled for single-character separators only. The parser only ever splits on `:` and `/`, so both are single ASCII bytes and the byte-level behaviour agrees.
- `ParseARN` being deterministic holds by construction, since every operation is a function, and is not stated as a lemma.
- Go's `SplitN` special case for an empty separator is not modelled, because the parser never passes one.
