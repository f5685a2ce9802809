/** Worked examples: the parser applied to concrete resource parts and ARNs, with
    the results arner.go gives for them. Most come from the test table in
    arner_test.go, which is cited beside each; where that table expects something
    else, the comment says so. The rest show edge cases of the code. Each ARN is
    written as "arn:" and its five sections concatenated with ":" between them,
    which Spelled relates to the joined form the parser lemmas use. */
module ArnerExamples {
  import opened GoStrings
  import opened Arner

  /** "arn:" and five sections joined with ':' spell "arn:" p ":" s ":" r ":" a ":" res. */
  lemma Spelled(partition: string, service: string, region: string, accountID: string, resource: string)
    ensures ArnPrefix + Join([partition, service, region, accountID, resource], ArnDelimiter)
         == "arn:" + partition + ":" + service + ":" + region + ":" + accountID + ":" + resource
  {
    var fields := [partition, service, region, accountID, resource];
    JoinTail(fields, ArnDelimiter);
    assert fields[1..] == [service, region, accountID, resource];
    JoinTail([service, region, accountID, resource], ArnDelimiter);
    assert [service, region, accountID, resource][1..] == [region, accountID, resource];
    JoinTail([region, accountID, resource], ArnDelimiter);
    assert [region, accountID, resource][1..] == [accountID, resource];
    JoinTwo([accountID, resource], ArnDelimiter);
  }

  /** A type and a name (arner_test.go:13-22). */
  lemma SlashUser()
    ensures ParseSlash("user/JohnDoe") == ("user", "JohnDoe", "")
  {
    assert "user/JohnDoe" == Join(["user"] + [] + ["JohnDoe"], '/');
    ParseSlashOf("user", [], "JohnDoe");
  }

  /** A nested user, user/division_abc/JaneDoe, keeps its middle token as a path
      wrapped in slashes; the test table expects the path without them
      (arner_test.go:37-46). */
  lemma SlashNested()
    ensures ParseSlash("user" + "/" + "division_abc" + "/" + "JaneDoe")
         == ("user", "JaneDoe", "/" + "division_abc" + "/")
  {
    assert ["user"] + ["division_abc"] + ["JaneDoe"] == ["user", "division_abc", "JaneDoe"];
    JoinSingle("division_abc", '/');
    JoinEnds(["user", "division_abc", "JaneDoe"], '/');
    ParseSlashOf("user", ["division_abc"], "JaneDoe");
  }

  /** Four '/'-tokens joined with '/', and the two middle ones joined alone. */
  lemma JoinFour(t: string, m1: string, m2: string, n: string)
    ensures Join([t] + [m1, m2] + [n], '/') == t + "/" + m1 + "/" + m2 + "/" + n
    ensures Join([m1, m2], '/') == m1 + "/" + m2
  {
    var parts := [t] + [m1, m2] + [n];
    JoinTwo([m1, m2], '/');
    Between(t, [m1, m2], n);
    JoinEnds(parts, '/');
    var m := m1 + "/" + m2;
    assert Join(parts, '/') == t + "/" + m + "/" + n;
    assert t + "/" + m == t + "/" + m1 + "/" + m2;
  }

  /** Two middle tokens: the path holds both, with a '/' between them and the
      wrapping slashes around them. */
  lemma SlashFour(t: string, m1: string, m2: string, n: string)
    requires '/' !in t && '/' !in m1 && '/' !in m2 && '/' !in n
    ensures ParseSlash(t + "/" + m1 + "/" + m2 + "/" + n) == (t, n, "/" + m1 + "/" + m2 + "/")
  {
    JoinFour(t, m1, m2, n);
    calc {
      ParseSlash(t + "/" + m1 + "/" + m2 + "/" + n);
      ParseSlash(Join([t] + [m1, m2] + [n], '/'));
      { ParseSlashOf(t, [m1, m2], n); }
      (t, n, "/" + Join([m1, m2], '/') + "/");
      { assert "/" + (m1 + "/" + m2) + "/" == "/" + m1 + "/" + m2 + "/"; }
      (t, n, "/" + m1 + "/" + m2 + "/");
    }
  }

  /** user/division_abc/subdivision_xyz/JaneDoe gives the path
      /division_abc/subdivision_xyz/, wrapped as the code writes it; the test table
      expects it without the outer slashes (arner_test.go:24-35). */
  lemma SlashNestedTwo()
    ensures ParseSlash("user" + "/" + "division_abc" + "/" + "subdivision_xyz" + "/" + "JaneDoe")
         == ("user", "JaneDoe", "/" + "division_abc" + "/" + "subdivision_xyz" + "/")
  {
    SlashFour("user", "division_abc", "subdivision_xyz", "JaneDoe");
  }

  /** A resource with no '/' is both the type and the name. */
  lemma SlashOneToken()
    ensures ParseSlash("JohnDoe") == ("JohnDoe", "JohnDoe", "")
  {
    assert "JohnDoe" == Join(["JohnDoe"], '/');
    SplitJoin(["JohnDoe"], '/');
  }

  /** A bucket and a wildcard (arner_test.go:319-330). */
  lemma S3Wildcard()
    ensures ParseS3("bucket-name/*") == ("bucket-name", "")
  {
    assert "bucket-name/*" == Join(["bucket-name"] + [] + ["*"], '/');
    ParseS3Of("bucket-name", []);
  }

  /** A bucket alone (arner_test.go:331-342). */
  lemma S3Bucket()
    ensures ParseS3("bucket-name") == ("bucket-name", "")
  {
    assert "bucket-name" == Join(["bucket-name"] + [], '/');
    ParseS3Of("bucket-name", []);
  }

  /** A bucket and a folder give the folder as the path; the test table expects an
      empty path here (arner_test.go:343-354). */
  lemma S3Folder()
    ensures ParseS3("bucket-name/bucket-folder") == ("bucket-name", "bucket-folder")
  {
    assert "bucket-name/bucket-folder" == Join(["bucket-name"] + ["bucket-folder"], '/');
    ParseS3Of("bucket-name", ["bucket-folder"]);
  }

  /** A bucket, a folder and a wildcard (arner_test.go:355-366). */
  lemma S3FolderWildcard()
    ensures ParseS3("bucket-name" + "/" + "bucket-folder" + "/" + "*") == ("bucket-name", "bucket-folder")
  {
    assert ["bucket-name"] + ["bucket-folder"] + ["*"] == ["bucket-name", "bucket-folder", "*"];
    JoinSingle("bucket-folder", '/');
    JoinEnds(["bucket-name", "bucket-folder", "*"], '/');
    ParseS3Of("bucket-name", ["bucket-folder"]);
  }

  /** A Lambda function (arner_test.go:391-401). */
  lemma ColonFunction()
    ensures ParseColon("function:lambda-name") == ("function", "lambda-name")
  {
    assert "function:lambda-name" == "function" + ":" + "lambda-name";
    ParseColonOf("function", "", "lambda-name");
  }

  /** arn:aws:iam::123456789012:user/JohnDoe (arner_test.go:13-22). */
  lemma IamUser()
    ensures ParseARN("arn:" + "aws" + ":" + "iam" + ":" + "" + ":" + "123456789012" + ":" + "user/JohnDoe")
         == (BetterARN("aws", "iam", "", "123456789012", "user", "JohnDoe", ""), None)
  {
    Spelled("aws", "iam", "", "123456789012", "user/JohnDoe");
    SlashUser();
    assert ParseResource("iam", "user/JohnDoe") == ("user", "JohnDoe", "");
    ParseARNOf("aws", "iam", "", "123456789012", "user/JohnDoe");
  }

  /** The S3 ARN of every object in bucket-name: the resource part is the bucket,
      a slash and a star (arner_test.go:319-330). */
  lemma S3Arn()
    ensures ParseARN("arn:" + "aws" + ":" + "s3" + ":" + "" + ":" + "" + ":" + "bucket-name/*")
         == (BetterARN("aws", "s3", "", "", "", "bucket-name", ""), None)
  {
    Spelled("aws", "s3", "", "", "bucket-name/*");
    S3Wildcard();
    assert ParseResource("s3", "bucket-name/*") == ("", "bucket-name", "");
    ParseARNOf("aws", "s3", "", "", "bucket-name/*");
  }

  /** An STS ARN keeps its whole resource part as the name (arner_test.go:168-179). */
  lemma StsVerbatim()
    ensures var resource := "assumed-role" + "/" + "Accounting-Role" + "/" + "JaneDoe";
      ParseARN("arn:" + "aws" + ":" + "sts" + ":" + "" + ":" + "123456789012" + ":" + resource)
      == (BetterARN("aws", "sts", "", "123456789012", "", resource, ""), None)
  {
    var resource := "assumed-role" + "/" + "Accounting-Role" + "/" + "JaneDoe";
    Spelled("aws", "sts", "", "123456789012", resource);
    assert !KnownService("sts");
    assert ParseResource("sts", resource) == ("", resource, "");
    ParseARNOf("aws", "sts", "", "123456789012", resource);
  }

  /** The service is matched exactly: "IAM" is not "iam" (compare IamUser), so the
      resource part is kept whole. */
  lemma ServiceCaseSensitive()
    ensures ParseResource("IAM", "user" + "/" + "JohnDoe") == ("", "user" + "/" + "JohnDoe", "")
  {
  }

  /** Five colons after "arn" are enough: "arn:::::" parses, with no error, to the
      same all-empty record that a rejected string gets with an error. */
  lemma EmptySections()
    ensures ParseARN("arn:" + "" + ":" + "" + ":" + "" + ":" + "" + ":" + "") == (ZeroARN, None)
  {
    Spelled("", "", "", "", "");
    ParseARNOf("", "", "", "", "");
  }

  /** Too few colons: arn:garbage (arner_test.go:252-255). */
  lemma Garbage()
    ensures ParseARN("arn:" + "garbage") == (ZeroARN, Some(InvalidPrefix))
  {
    CountAfterFirst("arn:", ':', 3);
    CountZero("garbage", ':');
    CountConcat("arn:", "garbage", ':');
  }

  /** Enough colons but no "arn:" in front (arner_test.go:256-258). */
  lemma GarbageNoPrefix()
    ensures ParseARN("more:Garbage::::junk") == (ZeroARN, Some(InvalidPrefix))
  {
    assert "more:Garbage::::junk"[..4][0] != ArnPrefix[0];
  }
}
