/** The ARN parser of arner.go. An Amazon Resource Name has the shape
    arn:partition:service:region:account-id:resource, and the resource part is
    parsed further in one of three ways chosen by the service. */
module Arner {
  import opened GoStrings

  const ArnDelimiter: char := ':'
  const ArnSections: int := 6
  const ArnPrefix: string := "arn:"

  // Positions in the result of splitting an ARN on ArnDelimiter (zero-indexed).
  const SectionPartition: nat := 1
  const SectionService: nat := 2
  const SectionRegion: nat := 3
  const SectionAccountID: nat := 4
  const SectionResource: nat := 5

  /** The parsed record; the all-empty value is Go's zero value `BetterARN{}`. */
  datatype BetterARN = BetterARN(
    partition: string,
    service: string,
    region: string,
    accountID: string,
    resourceType: string,
    resource: string,
    path: string)

  const ZeroARN := BetterARN("", "", "", "", "", "", "")

  /** The one error ParseARN reports; its message text is not modelled. */
  datatype ParseError = InvalidPrefix

  /** Go's `error` result: None is nil. */
  datatype Option<T> = None | Some(value: T)

  /** The services whose resource part follows the slash grammar. */
  predicate SlashService(service: string)
  {
    service == "iam" || service == "dynamodb" || service == "ec2"
  }

  /** The services whose resource part follows the colon grammar. */
  predicate ColonService(service: string)
  {
    service == "lambda" || service == "rds" || service == "redshift"
  }

  /** The services the switch in ParseARN names. */
  predicate KnownService(service: string)
  {
    SlashService(service) || service == "s3" || ColonService(service)
  }

  /** IsARN: the string starts with "arn:" and has at least five colons. */
  predicate IsARN(arn: string)
  {
    HasPrefix(arn, ArnPrefix) && Count(arn, ArnDelimiter) >= ArnSections - 1
  }

  /** parseSlash: split the resource on '/' and read the fields off the tokens. */
  function ParseSlash(resource: string): (string, string, string)
  {
    SlashFields(Split(resource, '/'))
  }

  /** The fields parseSlash reads off its tokens: the type is the first token, the
      name the last, and the tokens in between, joined with '/' and wrapped in
      slashes, form the path. The path is empty exactly when there are at most two
      tokens; otherwise it begins and ends with '/'. */
  function SlashFields(pathSplits: seq<string>): (r: (string, string, string))
    requires |pathSplits| >= 1
    ensures r.2 == "" <==> |pathSplits| <= 2
    ensures r.2 != "" ==> |r.2| >= 2 && r.2[0] == '/' && r.2[|r.2| - 1] == '/'
  {
    var resPath :=
      if |pathSplits| > 2 then "/" + Join(pathSplits[1..|pathSplits| - 1], '/') + "/" else "";
    (pathSplits[0], pathSplits[|pathSplits| - 1], resPath)
  }

  /** A resource with more than one '/' is type, path and name in a row, and the
      path begins and ends with '/'. */
  lemma SlashFieldsMore(parts: seq<string>)
    requires |parts| >= 3
    ensures var (t, n, p) := SlashFields(parts);
      t + p + n == Join(parts, '/') && |p| >= 2 && p[0] == '/' && p[|p| - 1] == '/'
  {
    var middle := Join(parts[1..|parts| - 1], '/');
    JoinEnds(parts, '/');
    AppendAssoc(parts[0], "/" + middle, "/");
    AppendAssoc(parts[0], "/", middle);
  }

  /** The type and the name of parseSlash are the first and the last '/'-token, so
      neither holds a '/'. With no '/' the whole resource is both; with one, the
      resource is type "/" name and there is no path; with more, the resource is
      type, path and name in a row, the path beginning and ending with '/'. */
  lemma ParseSlashRebuild(resource: string)
    ensures var (t, n, p) := ParseSlash(resource);
      '/' !in t && '/' !in n
      && (Count(resource, '/') == 0 ==> t == resource && n == resource && p == "")
      && (Count(resource, '/') == 1 ==> t + "/" + n == resource && p == "")
      && (Count(resource, '/') >= 2 ==>
            t + p + n == resource && |p| >= 2 && p[0] == '/' && p[|p| - 1] == '/')
  {
    if |Split(resource, '/')| == 1 {
      SlashWhole(resource);
    } else if |Split(resource, '/')| == 2 {
      SlashPair(resource);
    } else {
      SlashMany(resource);
    }
  }

  lemma SlashWhole(resource: string)
    requires |Split(resource, '/')| == 1
    ensures ParseSlash(resource) == (resource, resource, "")
  {
    JoinSplit(resource, '/');
  }

  lemma SlashPair(resource: string)
    requires |Split(resource, '/')| == 2
    ensures ParseSlash(resource).0 + "/" + ParseSlash(resource).1 == resource
    ensures ParseSlash(resource).2 == ""
  {
    JoinTwo(Split(resource, '/'), '/');
    JoinSplit(resource, '/');
  }

  lemma SlashMany(resource: string)
    requires |Split(resource, '/')| >= 3
    ensures var (t, n, p) := ParseSlash(resource);
      t + p + n == resource && |p| >= 2 && p[0] == '/' && p[|p| - 1] == '/'
  {
    SlashFieldsMore(Split(resource, '/'));
    JoinSplit(resource, '/');
  }

  /** parseSlash undoes joining a type, any number of middle tokens and a name with
      '/': it gives back the type, the name and the middle wrapped in slashes. */
  lemma ParseSlashOf(t: string, middle: seq<string>, n: string)
    requires '/' !in t && '/' !in n
    requires forall k :: 0 <= k < |middle| ==> '/' !in middle[k]
    ensures ParseSlash(Join([t] + middle + [n], '/'))
         == (t, n, if middle == [] then "" else "/" + Join(middle, '/') + "/")
  {
    var parts := [t] + middle + [n];
    forall k | 0 <= k < |parts|
      ensures '/' !in parts[k]
    {
      if 0 < k < |parts| - 1 {
        assert parts[k] == middle[k - 1];
      }
    }
    SplitJoin(parts, '/');
    assert parts[1..|parts| - 1] == middle;
  }

  /** parseS3: split the resource on '/' and read the fields off the tokens. */
  function ParseS3(resource: string): (string, string)
  {
    S3Fields(Split(resource, '/'))
  }

  /** The fields parseS3 reads off its tokens: the bucket is the first token; the
      path is the other tokens joined with '/', leaving out a last token that is
      exactly a star. A bucket alone, or followed only by a star, has an empty
      path. */
  function S3Fields(pathSplits: seq<string>): (r: (string, string))
    requires |pathSplits| >= 1
    ensures |pathSplits| == 1 || (|pathSplits| == 2 && pathSplits[1] == "*") ==> r.1 == ""
  {
    var resPath :=
      if |pathSplits| > 1 then
        if pathSplits[|pathSplits| - 1] == "*" then Join(pathSplits[1..|pathSplits| - 1], '/')
        else Join(pathSplits[1..], '/')
      else "";
    (pathSplits[0], resPath)
  }

  lemma S3FieldsStar(parts: seq<string>)
    requires |parts| >= 3 && parts[|parts| - 1] == "*"
    ensures S3Fields(parts).0 + "/" + S3Fields(parts).1 + "/*" == Join(parts, '/')
  {
    var front := parts[0] + "/" + Join(parts[1..|parts| - 1], '/');
    JoinEnds(parts, '/');
    AppendAssoc(front, "/", "*");
    assert "/" + "*" == "/*";
  }

  /** The bucket of parseS3 is the first '/'-token and holds no '/'. With no '/'
      the bucket is the whole resource and the path is empty; otherwise the resource
      is bucket "/" path, followed by a slash and a star when the last token is
      exactly a star. */
  lemma ParseS3Rebuild(resource: string)
    ensures var (b, p) := ParseS3(resource);
      var tokens := Split(resource, '/');
      '/' !in b
      && (Count(resource, '/') == 0 ==> b == resource && p == "")
      && (Count(resource, '/') >= 1 && tokens[|tokens| - 1] != "*" ==> b + "/" + p == resource)
      && (Count(resource, '/') == 1 && tokens[|tokens| - 1] == "*" ==> p == "" && b + "/*" == resource)
      && (Count(resource, '/') >= 2 && tokens[|tokens| - 1] == "*" ==> b + "/" + p + "/*" == resource)
  {
    if |Split(resource, '/')| == 1 {
      S3Whole(resource);
    } else if Split(resource, '/')[|Split(resource, '/')| - 1] != "*" {
      S3Plain(resource);
    } else if |Split(resource, '/')| == 2 {
      S3StarOnly(resource);
    } else {
      S3Star(resource);
    }
  }

  lemma S3Whole(resource: string)
    requires |Split(resource, '/')| == 1
    ensures ParseS3(resource) == (resource, "")
  {
    JoinSplit(resource, '/');
  }

  lemma S3Plain(resource: string)
    requires |Split(resource, '/')| >= 2
    requires Split(resource, '/')[|Split(resource, '/')| - 1] != "*"
    ensures ParseS3(resource).0 + "/" + ParseS3(resource).1 == resource
  {
    JoinTail(Split(resource, '/'), '/');
    JoinSplit(resource, '/');
  }

  lemma S3StarOnly(resource: string)
    requires |Split(resource, '/')| == 2
    requires Split(resource, '/')[1] == "*"
    ensures ParseS3(resource).1 == "" && ParseS3(resource).0 + "/*" == resource
  {
    JoinTwo(Split(resource, '/'), '/');
    JoinSplit(resource, '/');
  }

  lemma S3Star(resource: string)
    requires |Split(resource, '/')| >= 3
    requires Split(resource, '/')[|Split(resource, '/')| - 1] == "*"
    ensures ParseS3(resource).0 + "/" + ParseS3(resource).1 + "/*" == resource
  {
    S3FieldsStar(Split(resource, '/'));
    JoinSplit(resource, '/');
  }

  /** parseS3 undoes joining a bucket and folders with '/', whether or not a last
      token "*" follows them; the path is the folders joined with '/'. */
  lemma ParseS3Of(bucket: string, folders: seq<string>)
    requires '/' !in bucket
    requires forall k :: 0 <= k < |folders| ==> '/' !in folders[k]
    ensures folders == [] || folders[|folders| - 1] != "*" ==>
      ParseS3(Join([bucket] + folders, '/')) == (bucket, Join(folders, '/'))
    ensures ParseS3(Join([bucket] + folders + ["*"], '/')) == (bucket, Join(folders, '/'))
  {
    if folders == [] || folders[|folders| - 1] != "*" {
      S3OfFolders(bucket, folders);
    }
    S3OfStarred(bucket, folders);
  }

  lemma S3OfFolders(bucket: string, folders: seq<string>)
    requires '/' !in bucket
    requires forall k :: 0 <= k < |folders| ==> '/' !in folders[k]
    requires folders == [] || folders[|folders| - 1] != "*"
    ensures ParseS3(Join([bucket] + folders, '/')) == (bucket, Join(folders, '/'))
  {
    FreeOfAll(bucket, folders, '/');
    SplitJoin([bucket] + folders, '/');
    assert ([bucket] + folders)[1..] == folders;
  }

  lemma S3OfStarred(bucket: string, folders: seq<string>)
    requires '/' !in bucket
    requires forall k :: 0 <= k < |folders| ==> '/' !in folders[k]
    ensures ParseS3(Join([bucket] + folders + ["*"], '/')) == (bucket, Join(folders, '/'))
  {
    var parts := [bucket] + folders + ["*"];
    FreeOfAll(bucket, folders, '/');
    FreeOfSnoc([bucket] + folders, "*", '/');
    SplitJoin(parts, '/');
    Between(bucket, folders, "*");
    calc {
      ParseS3(Join(parts, '/'));
      S3Fields(parts);
      { assert |parts| > 1 && parts[|parts| - 1] == "*"; }
      (parts[0], Join(parts[1..|parts| - 1], '/'));
      (bucket, Join(folders, '/'));
    }
  }

  /** parseColon: split the resource on ':' and read the fields off the tokens. */
  function ParseColon(resource: string): (string, string)
  {
    ColonFields(Split(resource, ':'))
  }

  /** The fields parseColon reads off its tokens: the first and the last, which
      are one and the same when there is a single token. */
  function ColonFields(pathSplits: seq<string>): (r: (string, string))
    requires |pathSplits| >= 1
    ensures |pathSplits| == 1 ==> r.0 == r.1
  {
    (pathSplits[0], pathSplits[|pathSplits| - 1])
  }

  lemma ColonFieldsMore(parts: seq<string>)
    requires |parts| >= 3
    ensures exists mid :: Join(parts, ':') == ColonFields(parts).0 + ":" + mid + ":" + ColonFields(parts).1
  {
    JoinEnds(parts, ':');
    var mid := Join(parts[1..|parts| - 1], ':');
    assert Join(parts, ':') == parts[0] + ":" + mid + ":" + parts[|parts| - 1];
  }

  /** The type and the name of parseColon are the first and the last ':'-token and
      hold no ':'. With no ':' the whole resource is both; with one, the resource is
      type ":" name; with more, whatever lies between them is dropped. */
  lemma ParseColonRebuild(resource: string)
    ensures var (t, n) := ParseColon(resource);
      ':' !in t && ':' !in n
      && (Count(resource, ':') == 0 ==> t == resource && n == resource)
      && (Count(resource, ':') == 1 ==> t + ":" + n == resource)
      && (Count(resource, ':') >= 2 ==> exists mid :: resource == t + ":" + mid + ":" + n)
  {
    if |Split(resource, ':')| == 1 {
      ColonWhole(resource);
    } else if |Split(resource, ':')| == 2 {
      ColonPair(resource);
    } else {
      ColonMany(resource);
    }
  }

  lemma ColonWhole(resource: string)
    requires |Split(resource, ':')| == 1
    ensures ParseColon(resource) == (resource, resource)
  {
    JoinSplit(resource, ':');
  }

  lemma ColonPair(resource: string)
    requires |Split(resource, ':')| == 2
    ensures ParseColon(resource).0 + ":" + ParseColon(resource).1 == resource
  {
    JoinTwo(Split(resource, ':'), ':');
    JoinSplit(resource, ':');
  }

  lemma ColonMany(resource: string)
    requires |Split(resource, ':')| >= 3
    ensures exists mid :: resource == ParseColon(resource).0 + ":" + mid + ":" + ParseColon(resource).1
  {
    ColonFieldsMore(Split(resource, ':'));
    JoinSplit(resource, ':');
  }

  /** parseColon keeps the first and the last ':'-token whatever stands between
      them, colons included. */
  lemma ParseColonOf(t: string, mid: string, n: string)
    requires ':' !in t && ':' !in n
    ensures ParseColon(t + ":" + n) == (t, n)
    ensures ParseColon(t + ":" + mid + ":" + n) == (t, n)
  {
    var pair := [t, n];
    assert pair == [t] + [n];
    JoinCons(t, [n], ':');
    SplitJoin(pair, ':');
    var middle := Split(mid, ':');
    var parts := [t] + middle + [n];
    SplitFree(mid, ':');
    FreeOfAll(t, middle + [n], ':');
    assert parts == [t] + (middle + [n]);
    assert parts[1..|parts| - 1] == middle;
    JoinEnds(parts, ':');
    JoinSplit(mid, ':');
    SplitJoin(parts, ':');
  }

  /** The switch in ParseARN: (resourceType, resourceName, path) for the resource
      part `blob` of an ARN of the given service. */
  function ParseResource(service: string, blob: string): (r: (string, string, string))
    ensures SlashService(service) ==> r == ParseSlash(blob)
    ensures service == "s3" ==> r == ("", ParseS3(blob).0, ParseS3(blob).1)
    ensures ColonService(service) ==> r == (ParseColon(blob).0, ParseColon(blob).1, "")
    ensures !KnownService(service) ==> r == ("", blob, "")
  {
    if service == "iam" then ParseSlash(blob)
    else if service == "s3" then
      var (resourceName, path) := ParseS3(blob);
      ("", resourceName, path)
    else if service == "dynamodb" then ParseSlash(blob)
    else if service == "ec2" then ParseSlash(blob)
    else if service == "lambda" then
      var (resourceType, resourceName) := ParseColon(blob);
      (resourceType, resourceName, "")
    else if service == "rds" then
      var (resourceType, resourceName) := ParseColon(blob);
      (resourceType, resourceName, "")
    else if service == "redshift" then
      var (resourceType, resourceName) := ParseColon(blob);
      (resourceType, resourceName, "")
    else ("", blob, "")
  }

  /** ParseARN: the record and the error, as Go returns them. A string that fails
      IsARN gives the zero record and the invalid-prefix error; any other string
      gives a filled record and no error. */
  function ParseARN(arn: string): (r: (BetterARN, Option<ParseError>))
    ensures r.1 == None <==> IsARN(arn)
    ensures r.1 != None ==> r.0 == ZeroARN && r.1 == Some(InvalidPrefix)
  {
    if !IsARN(arn) then (ZeroARN, Some(InvalidPrefix))
    else
      var sections := SplitN(arn, ArnDelimiter, ArnSections);
      var (resourceType, resourceName, path) :=
        ParseResource(sections[SectionService], sections[SectionResource]);
      (BetterARN(
         sections[SectionPartition],
         sections[SectionService],
         sections[SectionRegion],
         sections[SectionAccountID],
         resourceType,
         resourceName,
         path),
       None)
  }

  /** The first section of anything that starts with "arn:" is "arn". */
  lemma FirstSection(arn: string)
    requires HasPrefix(arn, ArnPrefix)
    ensures SplitN(arn, ArnDelimiter, ArnSections)[0] == "arn"
  {
    assert arn == "arn" + [ArnDelimiter] + arn[4..];
    SplitNAfter("arn", arn[4..], ArnDelimiter, ArnSections);
  }

  /** An ARN splits into exactly six sections: "arn", then partition, service,
      region and account, none holding a ':', then the resource part, which keeps
      any further colons. The sections join back to the ARN, and the record holds
      sections 1 to 4 and the fields the service's grammar reads off section 5. */
  lemma ParseARNSections(arn: string)
    requires IsARN(arn)
    ensures var sections := SplitN(arn, ArnDelimiter, ArnSections);
      var a := ParseARN(arn).0;
      |sections| == ArnSections && sections[0] == "arn"
      && Join(sections, ArnDelimiter) == arn
      && a.partition == sections[SectionPartition] && a.service == sections[SectionService]
      && a.region == sections[SectionRegion] && a.accountID == sections[SectionAccountID]
      && ':' !in a.partition && ':' !in a.service && ':' !in a.region && ':' !in a.accountID
      && (a.resourceType, a.resource, a.path) == ParseResource(a.service, sections[SectionResource])
  {
    FirstSection(arn);
    SplitNPieces(arn, ArnDelimiter, ArnSections);
    JoinSplitN(arn, ArnDelimiter, ArnSections);
  }

  /** Every string ParseARN accepts is "arn:" followed by the partition, service,
      region and account of its record and a resource part, joined with ':'; the
      resource fields of the record are what the service's grammar reads off that
      resource part. */
  lemma ParseARNRebuild(arn: string)
    requires IsARN(arn)
    ensures var a := ParseARN(arn).0;
      exists resource ::
        arn == ArnPrefix + Join([a.partition, a.service, a.region, a.accountID, resource], ArnDelimiter)
        && ParseResource(a.service, resource) == (a.resourceType, a.resource, a.path)
  {
    ParseARNSections(arn);
    AfterPrefix(SplitN(arn, ArnDelimiter, ArnSections));
  }

  /** Six sections led by "arn" join to "arn:" followed by the other five joined. */
  lemma AfterPrefix(sections: seq<string>)
    requires |sections| == 6 && sections[0] == "arn"
    ensures Join(sections, ArnDelimiter)
         == ArnPrefix + Join([sections[1], sections[2], sections[3], sections[4], sections[5]], ArnDelimiter)
  {
    JoinTail(sections, ArnDelimiter);
    assert sections[1..] == [sections[1], sections[2], sections[3], sections[4], sections[5]];
    assert "arn" + [ArnDelimiter] == ArnPrefix;
  }

  /** ParseARN undoes composing an ARN: "arn:" and four fields free of ':' and any
      resource part, joined with ':', parse back to those fields, with the resource
      fields the service's grammar reads off the resource part, and no error. */
  lemma ParseARNOf(partition: string, service: string, region: string, accountID: string,
                   resource: string)
    requires ':' !in partition && ':' !in service && ':' !in region && ':' !in accountID
    ensures var (t, n, p) := ParseResource(service, resource);
      ParseARN(ArnPrefix + Join([partition, service, region, accountID, resource], ArnDelimiter))
        == (BetterARN(partition, service, region, accountID, t, n, p), None)
  {
    var fields := [partition, service, region, accountID, resource];
    ComposedSections(fields);
    HasPrefixOf(ArnPrefix, Join(fields, ArnDelimiter));
  }

  /** "arn:" and five fields joined with ':' split back into "arn" and the fields,
      when none of the first four holds a ':'. */
  lemma ComposedSections(fields: seq<string>)
    requires |fields| == 5
    requires forall k :: 0 <= k < 4 ==> ArnDelimiter !in fields[k]
    ensures SplitN(ArnPrefix + Join(fields, ArnDelimiter), ArnDelimiter, ArnSections) == ["arn"] + fields
  {
    PrefixSplit(Join(fields, ArnDelimiter));
    SplitNJoin(fields, ArnDelimiter, 5);
  }

  /** Splitting "arn:" and a rest gives "arn" and the rest split one piece fewer. */
  lemma PrefixSplit(rest: string)
    ensures SplitN(ArnPrefix + rest, ArnDelimiter, ArnSections)
         == ["arn"] + SplitN(rest, ArnDelimiter, ArnSections - 1)
  {
    assert "arn" + [ArnDelimiter] == ArnPrefix;
    SplitNAfter("arn", rest, ArnDelimiter, ArnSections);
  }

  /** IsARN holds exactly for the strings that are "arn:" followed by four fields
      free of ':' and a resource part, joined with ':'. */
  lemma IsARNShape(arn: string)
    ensures IsARN(arn) <==>
      exists partition, service, region, accountID, resource ::
        ':' !in partition && ':' !in service && ':' !in region && ':' !in accountID
        && arn == ArnPrefix + Join([partition, service, region, accountID, resource], ArnDelimiter)
  {
    if IsARN(arn) {
      ParseARNSections(arn);
      ParseARNRebuild(arn);
    }
    if exists partition, service, region, accountID, resource ::
        ':' !in partition && ':' !in service && ':' !in region && ':' !in accountID
        && arn == ArnPrefix + Join([partition, service, region, accountID, resource], ArnDelimiter)
    {
      var partition, service, region, accountID, resource :|
        ':' !in partition && ':' !in service && ':' !in region && ':' !in accountID
        && arn == ArnPrefix + Join([partition, service, region, accountID, resource], ArnDelimiter);
      ParseARNOf(partition, service, region, accountID, resource);
    }
  }
}
