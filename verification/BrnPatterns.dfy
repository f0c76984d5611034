/** The regular expressions of the name parser as they are written in the source, and
    that the readers of `Brn` accept exactly the texts they match.
 */
module BrnPatterns {
  import opened Options
  import opened Brn

  // Every repetition in these expressions is one of a character class, given by its
  // ranges.
  datatype Regex =
    | Lit(text: string)
    | Repeat(ranges: seq<(char, char)>, low: nat, high: Option<nat>)
    | Cat(first: Regex, second: Regex)
    | Alt(left: Regex, right: Regex)
    | Maybe(inner: Regex)

  predicate InClass(ranges: seq<(char, char)>, c: char) {
    exists i :: 0 <= i < |ranges| && ranges[i].0 <= c <= ranges[i].1
  }

  // The whole text matches.
  predicate Matches(r: Regex, s: string) {
    match r
    case Lit(text) => s == text
    case Repeat(ranges, low, high) =>
      low <= |s| && (high.Some? ==> |s| <= high.value) && forall c :: c in s ==> InClass(ranges, c)
    case Cat(first, second) => exists k :: 0 <= k <= |s| && Matches(first, s[..k]) && Matches(second, s[k..])
    case Alt(left, right) => Matches(left, s) || Matches(right, s)
    case Maybe(inner) => s == "" || Matches(inner, s)
  }

  const NAME: seq<(char, char)> := [('a', 'z'), ('A', 'Z'), ('0', '9'), ('-', '-'), ('_', '_')]
  const DIGIT: seq<(char, char)> := [('0', '9')]

  const NAMES: Regex := Repeat(NAME, 1, None)
  const VERSION: Regex := Alt(Lit("$LATEST"), Repeat(DIGIT, 1, None))
  const QUALIFIER: Regex := Alt(Lit("$LATEST"), NAMES)
  const ACCOUNT: Regex := Repeat([('0', '9'), ('a', 'z')], 32, Some(32))
  const CLOUD: Regex := Cat(Lit("cloud"), Repeat([('a', 'z'), ('A', 'Z'), ('-', '-')], 0, None))
  const REGION: Regex := Cat(Repeat([('a', 'z')], 2, Some(5)), Repeat(DIGIT, 0, None))
  const TAIL: Regex := Maybe(Cat(Lit(":"), QUALIFIER))

  const FULL: Regex :=
    Cat(Lit("brn:"), Cat(CLOUD, Cat(Lit(":faas:"), Cat(REGION, Cat(Lit(":"), Cat(ACCOUNT, Cat(Lit(":function:"), Cat(NAMES, TAIL))))))))

  const PARTIAL: Regex := Cat(Maybe(Cat(ACCOUNT, Lit(":"))), Cat(NAMES, TAIL))

  // ---------------------------------------------------------------------------
  // The pieces

  lemma OneRange(a: char, b: char, c: char)
    ensures InClass([(a, b)], c) <==> a <= c <= b
  {
    if a <= c <= b {
      assert [(a, b)][0].0 <= c;
    }
  }

  lemma NameClass(c: char)
    ensures InClass(NAME, c) <==> IsLower(c) || IsUpper(c) || IsDigit(c) || c == '-' || c == '_'
  {
    assert NAME[0] == ('a', 'z') && NAME[1] == ('A', 'Z') && NAME[2] == ('0', '9') && NAME[3] == ('-', '-') && NAME[4] == ('_', '_');
  }

  lemma NamesIff(s: string)
    ensures IsName(s) <==> Matches(NAMES, s)
  {
    forall c
      ensures InClass(NAME, c) <==> IsLower(c) || IsUpper(c) || IsDigit(c) || c == '-' || c == '_'
    {
      NameClass(c);
    }
  }

  lemma VersionIff(s: string)
    ensures IsVersion(s) <==> Matches(VERSION, s)
  {
    forall c
      ensures InClass(DIGIT, c) <==> IsDigit(c)
    {
      OneRange('0', '9', c);
    }
  }

  lemma QualifierIff(s: string)
    ensures IsQualifier(s) <==> Matches(QUALIFIER, s)
  {
    NamesIff(s);
    hide IsName;
    assert Matches(QUALIFIER, s) <==> Matches(Lit("$LATEST"), s) || Matches(NAMES, s);
  }

  lemma AccountClass(c: char)
    ensures InClass(ACCOUNT.ranges, c) <==> IsLower(c) || IsDigit(c)
  {
    assert ACCOUNT.ranges[0] == ('0', '9') && ACCOUNT.ranges[1] == ('a', 'z');
  }

  lemma AccountIff(s: string)
    ensures IsAccountID(s) <==> Matches(ACCOUNT, s)
  {
    forall c
      ensures InClass(ACCOUNT.ranges, c) <==> IsLower(c) || IsDigit(c)
    {
      AccountClass(c);
    }
  }

  lemma CatOf(a: Regex, b: Regex, x: string, y: string)
    requires Matches(a, x) && Matches(b, y)
    ensures Matches(Cat(a, b), x + y)
  {
    assert (x + y)[..|x|] == x && (x + y)[|x|..] == y;
  }

  lemma CatSplit(a: Regex, b: Regex, s: string) returns (x: string, y: string)
    requires Matches(Cat(a, b), s)
    ensures s == x + y && Matches(a, x) && Matches(b, y)
  {
    var k :| 0 <= k <= |s| && Matches(a, s[..k]) && Matches(b, s[k..]);
    x, y := s[..k], s[k..];
  }

  lemma CloudClass(c: char)
    ensures InClass(CLOUD.second.ranges, c) <==> IsLower(c) || IsUpper(c) || c == '-'
  {
    assert CLOUD.second.ranges[0] == ('a', 'z') && CLOUD.second.ranges[1] == ('A', 'Z') && CLOUD.second.ranges[2] == ('-', '-');
  }

  lemma PartitionIff(s: string)
    ensures IsPartition(s) <==> Matches(CLOUD, s)
  {
    forall c
      ensures InClass(CLOUD.second.ranges, c) <==> IsLower(c) || IsUpper(c) || c == '-'
    {
      CloudClass(c);
    }
    if IsPartition(s) {
      assert s[..5] == "cloud" && s == s[..5] + s[5..];
      CatOf(CLOUD.first, CLOUD.second, s[..5], s[5..]);
    }
    if Matches(CLOUD, s) {
      var x, y := CatSplit(CLOUD.first, CLOUD.second, s);
      assert x == "cloud" && s[5..] == y;
    }
  }

  lemma RegionIff(s: string)
    ensures IsRegion(s) <==> Matches(REGION, s)
  {
    forall c
      ensures InClass(DIGIT, c) <==> IsDigit(c)
      ensures InClass([('a', 'z')], c) <==> IsLower(c)
    {
      OneRange('0', '9', c);
      OneRange('a', 'z', c);
    }
    if IsRegion(s) {
      var k :| 2 <= k <= 5 && k <= |s| && (forall c :: c in s[..k] ==> IsLower(c)) && (forall c :: c in s[k..] ==> IsDigit(c));
      assert s == s[..k] + s[k..];
      CatOf(REGION.first, REGION.second, s[..k], s[k..]);
    }
    if Matches(REGION, s) {
      var x, y := CatSplit(REGION.first, REGION.second, s);
      assert s[..|x|] == x && s[|x|..] == y;
    }
  }

  lemma TailIff(s: string)
    ensures IsTail(s) <==> Matches(TAIL, s)
  {
    hide IsQualifier;
    var inner := Cat(Lit(":"), QUALIFIER);
    assert Matches(TAIL, s) <==> s == "" || Matches(inner, s);
    if s != "" && ":" <= s {
      QualifierIff(s[1..]);
      if IsQualifier(s[1..]) {
        assert s == ":" + s[1..];
        CatOf(Lit(":"), QUALIFIER, ":", s[1..]);
      }
    }
    if Matches(inner, s) {
      var x, y := CatSplit(Lit(":"), QUALIFIER, s);
      assert x == ":" && s[1..] == y && ":" <= s;
    }
  }

  // ---------------------------------------------------------------------------
  // The two expressions

  // Full names are the texts the first expression matches.
  lemma FullPatternIff(s: string)
    ensures IsFunctionBrn(s) <==> Matches(FULL, s)
  {
    BrnPatternIff(s);
    if MatchesBrnPattern(s) {
      var partition, region, account, name, tail :|
        FunctionParts(partition, region, account, name) && IsTail(tail) && String(FullName(partition, region, account, name, tail)) == s;
      FullMatches(partition, region, account, name, tail);
    }
    if Matches(FULL, s) {
      FullFound(s);
    }
  }

  const FROM_NAME: Regex := Cat(NAMES, TAIL)
  const FROM_ACCOUNT: Regex := Cat(ACCOUNT, Cat(Lit(":function:"), FROM_NAME))
  const FROM_REGION: Regex := Cat(REGION, Cat(Lit(":"), FROM_ACCOUNT))

  lemma FullMatches(partition: string, region: string, account: string, name: string, tail: string)
    requires FunctionParts(partition, region, account, name) && IsTail(tail)
    ensures Matches(FULL, String(FullName(partition, region, account, name, tail)))
  {
    PartitionIff(partition); RegionIff(region); AccountIff(account); NamesIff(name); TailIff(tail);
    hide Matches, IsPartition, IsRegion, IsAccountID, IsName, IsTail;
    LitMatches("brn:"); LitMatches(":faas:"); LitMatches(":"); LitMatches(":function:");
    var t1 := name + tail;
    CatOf(NAMES, TAIL, name, tail);
    var t2 := ":function:" + t1;
    CatOf(Lit(":function:"), FROM_NAME, ":function:", t1);
    var t3 := account + t2;
    CatOf(ACCOUNT, Cat(Lit(":function:"), FROM_NAME), account, t2);
    var t4 := ":" + t3;
    CatOf(Lit(":"), FROM_ACCOUNT, ":", t3);
    var t5 := region + t4;
    CatOf(REGION, Cat(Lit(":"), FROM_ACCOUNT), region, t4);
    var t6 := ":faas:" + t5;
    CatOf(Lit(":faas:"), FROM_REGION, ":faas:", t5);
    var t7 := partition + t6;
    CatOf(CLOUD, Cat(Lit(":faas:"), FROM_REGION), partition, t6);
    CatOf(Lit("brn:"), Cat(CLOUD, Cat(Lit(":faas:"), FROM_REGION)), "brn:", t7);
    FullText(partition, region, account, name, tail);
  }

  lemma LitMatches(text: string)
    ensures Matches(Lit(text), text)
  {
  }

  lemma LitOnly(text: string, s: string)
    requires Matches(Lit(text), s)
    ensures s == text
  {
  }

  // Printing a full name is writing its pieces one after the other.
  lemma FullText(partition: string, region: string, account: string, name: string, tail: string)
    ensures String(FullName(partition, region, account, name, tail))
         == "brn:" + (partition + (":faas:" + (region + (":" + (account + (":function:" + (name + tail)))))))
  {
    var t1 := name + tail;
    assert "function:" + name + tail == "function:" + t1;
    assert ":" + ("function:" + t1) == ":function:" + t1;
    var t2 := ":function:" + t1;
    var b := FullName(partition, region, account, name, tail);
    assert ":" + b.resource == t2;
    var front := "brn:" + partition;
    assert String(b) == front + ":" + "faas" + ":" + region + ":" + account + ":" + b.resource;
    assert ":" + "faas" + ":" == ":faas:";
    Associate(front, region, account, b.resource, t2);
  }

  lemma Associate(front: string, region: string, account: string, resource: string, t2: string)
    requires ":" + resource == t2
    ensures front + ":" + "faas" + ":" + region + ":" + account + ":" + resource
         == front + (":faas:" + (region + (":" + (account + t2))))
  {
    var x := front + ":" + "faas" + ":";
    assert x == front + ":faas:";
    assert x + region + ":" + account + ":" + resource == x + (region + (":" + (account + t2)));
  }

  lemma FullFound(s: string)
    requires Matches(FULL, s)
    ensures MatchesBrnPattern(s)
  {
    hide Matches, IsPartition, IsRegion, IsAccountID, IsName, IsTail;
    var a0, s1 := CatSplit(Lit("brn:"), Cat(CLOUD, Cat(Lit(":faas:"), FROM_REGION)), s);
    var partition, s2 := CatSplit(CLOUD, Cat(Lit(":faas:"), FROM_REGION), s1);
    var a1, s3 := CatSplit(Lit(":faas:"), FROM_REGION, s2);
    var region, s4 := CatSplit(REGION, Cat(Lit(":"), FROM_ACCOUNT), s3);
    var a2, s5 := CatSplit(Lit(":"), FROM_ACCOUNT, s4);
    var account, s6 := CatSplit(ACCOUNT, Cat(Lit(":function:"), FROM_NAME), s5);
    var a3, s7 := CatSplit(Lit(":function:"), FROM_NAME, s6);
    var name, tail := CatSplit(NAMES, TAIL, s7);
    LitOnly("brn:", a0); LitOnly(":faas:", a1); LitOnly(":", a2); LitOnly(":function:", a3);
    PartitionIff(partition); RegionIff(region); AccountIff(account); NamesIff(name); TailIff(tail);
    FullText(partition, region, account, name, tail);
    hide String;
    assert FunctionParts(partition, region, account, name);
  }

  // Short names are the texts the second expression matches.
  lemma PartialRegexIff(s: string)
    ensures IsPartialBrn(s) <==> Matches(PARTIAL, s)
  {
    PartialPatternIff(s);
    hide IsPartialBrn;
    var headRegex := Maybe(Cat(ACCOUNT, Lit(":")));
    if MatchesPartialPattern(s) {
      var head, name, tail :| PartialMatch(s, head, name, tail);
      HeadIff(head); NamesIff(name); TailIff(tail);
      hide Matches, IsName, IsTail, IsHead;
      CatOf(NAMES, TAIL, name, tail);
      CatOf(headRegex, FROM_NAME, head, name + tail);
      assert head + (name + tail) == head + name + tail;
    }
    if Matches(PARTIAL, s) {
      hide Matches, IsName, IsTail, IsHead;
      var head, rest := CatSplit(headRegex, FROM_NAME, s);
      var name, tail := CatSplit(NAMES, TAIL, rest);
      HeadIff(head); NamesIff(name); TailIff(tail);
      assert head + (name + tail) == head + name + tail;
      assert PartialMatch(s, head, name, tail);
    }
  }

  lemma HeadIff(s: string)
    ensures IsHead(s) <==> Matches(Maybe(Cat(ACCOUNT, Lit(":"))), s)
  {
    var inner := Cat(ACCOUNT, Lit(":"));
    assert Matches(Maybe(inner), s) <==> s == "" || Matches(inner, s);
    if s != "" && IsHead(s) {
      AccountIff(s[..32]);
      hide IsAccountID;
      assert s == s[..32] + ":";
      CatOf(ACCOUNT, Lit(":"), s[..32], ":");
    }
    if Matches(inner, s) {
      var x, y := CatSplit(ACCOUNT, Lit(":"), s);
      AccountIff(x);
      assert y == ":" && |x| == 32 && s[..32] == x && s[32] == ':';
    }
  }
}
