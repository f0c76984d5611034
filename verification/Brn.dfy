/** Resource names: colon-separated texts, their printer and parser, the names of
    functions, and the three ways in which a caller may name a function.
 */
module Brn {
  datatype Error = InvalidPrefix | NotEnoughSections | InvalidFunctionBrn | NotMatched

  datatype Result<T> = Ok(value: T) | Err(error: Error)

  // ---------------------------------------------------------------------------
  // Splitting at colons

  predicate Plain(s: string) {
    ':' !in s
  }

  function ColonAt(s: string): (i: nat)
    ensures i <= |s| && Plain(s[..i])
    ensures i == |s| <==> Plain(s)
    ensures i < |s| ==> s[i] == ':'
  {
    if s == "" || s[0] == ':' then 0 else
      var i := 1 + ColonAt(s[1..]);
      assert s[..i] == [s[0]] + s[1..][..i - 1];
      i
  }

  // At most n pieces; the last one keeps the colons that are left.
  function SplitN(s: string, n: nat): seq<string>
    decreases n
  {
    if n == 0 then []
    else if n == 1 || Plain(s) then [s]
    else [s[..ColonAt(s)]] + SplitN(s[ColonAt(s) + 1..], n - 1)
  }

  function Split(s: string): seq<string> {
    SplitN(s, |s| + 2)
  }

  function Join(parts: seq<string>): string
    requires parts != []
  {
    if |parts| == 1 then parts[0] else parts[0] + ":" + Join(parts[1..])
  }

  // What a split into at most n pieces looks like.
  predicate Cut(parts: seq<string>, n: nat) {
    && 0 < |parts| <= n
    && (forall i :: 0 <= i < |parts| - 1 ==> Plain(parts[i]))
    && (|parts| < n ==> Plain(parts[|parts| - 1]))
  }

  lemma JoinTwo(p: string, parts: seq<string>)
    requires parts != []
    ensures Join([p] + parts) == p + ":" + Join(parts)
  {
    assert ([p] + parts)[1..] == parts;
  }

  lemma CutTwo(p: string, parts: seq<string>, n: nat)
    requires n > 0 && parts != []
    ensures Cut([p] + parts, n) <==> Plain(p) && Cut(parts, n - 1)
  {
    hide Plain;
    var all := [p] + parts;
    assert all[|all| - 1] == parts[|parts| - 1];
    if Cut(all, n) {
      assert Plain(all[0]);
      assert forall i :: 0 <= i < |parts| - 1 ==> parts[i] == all[i + 1];
    }
  }

  lemma {:induction false} SplitIsCut(s: string, n: nat)
    requires n > 0
    ensures Cut(SplitN(s, n), n) && Join(SplitN(s, n)) == s
    decreases n
  {
    hide Plain;
    if n > 1 && !Plain(s) {
      var i := ColonAt(s);
      var rest := SplitN(s[i + 1..], n - 1);
      SplitIsCut(s[i + 1..], n - 1);
      CutTwo(s[..i], rest, n);
      JoinTwo(s[..i], rest);
      hide SplitN, Join, Cut;
      assert s == s[..i] + ":" + s[i + 1..];
    }
  }

  lemma {:induction false} ColonAfter(p: string, rest: string)
    requires Plain(p)
    ensures ColonAt(p + ":" + rest) == |p|
  {
    if p != "" {
      ColonAfter(p[1..], rest);
      assert (p + ":" + rest)[1..] == p[1..] + ":" + rest;
    }
  }

  // A colon-free piece in front is split off.
  lemma SplitTwo(p: string, rest: string, n: nat)
    requires Plain(p) && n > 1
    ensures SplitN(p + ":" + rest, n) == [p] + SplitN(rest, n - 1)
  {
    var s := p + ":" + rest;
    ColonAfter(p, rest);
    assert s[|p|] == ':';
    assert s[..|p|] == p && s[|p| + 1..] == rest;
  }

  lemma {:induction false} CutIsSplit(parts: seq<string>, n: nat)
    requires Cut(parts, n)
    ensures SplitN(Join(parts), n) == parts
    decreases n
  {
    hide Plain;
    if |parts| > 1 {
      var p, rest := parts[0], parts[1..];
      assert parts == [p] + rest;
      CutTwo(p, rest, n);
      CutIsSplit(rest, n - 1);
      JoinTwo(p, rest);
      SplitTwo(p, Join(rest), n);
      hide SplitN, Cut, Join;
    }
  }

  lemma {:induction false} JoinLength(parts: seq<string>)
    requires parts != []
    ensures |parts| <= |Join(parts)| + 1
  {
    if |parts| > 1 {
      JoinLength(parts[1..]);
    }
  }

  // SplitN inverts Join on exactly the cuts.
  lemma SplitNIff(s: string, n: nat, parts: seq<string>)
    requires n > 0
    ensures SplitN(s, n) == parts <==> Cut(parts, n) && Join(parts) == s
  {
    SplitIsCut(s, n);
    if Cut(parts, n) {
      CutIsSplit(parts, n);
    }
  }

  predicate AllPlain(parts: seq<string>) {
    forall p :: p in parts ==> Plain(p)
  }

  lemma SplitIff(s: string, parts: seq<string>)
    ensures Split(s) == parts <==> parts != [] && AllPlain(parts) && Join(parts) == s
  {
    SplitNIff(s, |s| + 2, parts);
    if parts != [] && Join(parts) == s {
      JoinLength(parts);
    }
  }

  lemma ColonCount(s: string)
    ensures Plain(s) <==> multiset(s)[':'] == 0
    ensures !Plain(s) ==> multiset(s)[':'] == 1 + multiset(s[ColonAt(s) + 1..])[':']
  {
    if !Plain(s) {
      var i := ColonAt(s);
      assert s == s[..i] + [':'] + s[i + 1..];
      assert multiset(s) == multiset(s[..i]) + multiset{':'} + multiset(s[i + 1..]);
      assert ':' !in multiset(s[..i]);
    }
  }

  // The number of colons decides the number of pieces.
  lemma {:induction false} SplitCount(s: string, n: nat)
    requires n > 0
    ensures |SplitN(s, n)| == if multiset(s)[':'] + 1 < n then multiset(s)[':'] + 1 else n
    decreases n
  {
    ColonCount(s);
    hide Plain;
    if n > 1 && !Plain(s) {
      SplitCount(s[ColonAt(s) + 1..], n - 1);
    }
  }

  // ---------------------------------------------------------------------------
  // Resource names

  datatype BRN = BRN(partition: string, service: string, region: string, accountID: string, resource: string)

  function Parse(s: string): Result<BRN> {
    if !("brn:" <= s) then Err(InvalidPrefix) else
      var sections := SplitN(s, 6);
      if |sections| != 6 then Err(NotEnoughSections)
      else Ok(BRN(sections[1], sections[2], sections[3], sections[4], sections[5]))
  }

  function String(b: BRN): string {
    "brn:" + b.partition + ":" + b.service + ":" + b.region + ":" + b.accountID + ":" + b.resource
  }

  predicate PlainSections(b: BRN) {
    Plain(b.partition) && Plain(b.service) && Plain(b.region) && Plain(b.accountID)
  }

  function Sections(b: BRN): seq<string> {
    ["brn", b.partition, b.service, b.region, b.accountID, b.resource]
  }

  lemma StringIsJoin(b: BRN)
    ensures String(b) == Join(Sections(b))
  {
    var s := Sections(b);
    assert s[1..][1..] == s[2..] && s[2..][1..] == s[3..] && s[3..][1..] == s[4..] && s[4..][1..] == s[5..];
    assert Join(s[5..]) == b.resource;
    assert Join(s[4..]) == b.accountID + ":" + b.resource;
    assert Join(s[3..]) == b.region + ":" + (b.accountID + ":" + b.resource);
    assert Join(s[2..]) == b.service + ":" + (b.region + ":" + (b.accountID + ":" + b.resource));
    assert "brn" + ":" == "brn:";
  }

  // Parsing accepts a text as a name exactly when the name prints as that text and
  // has no colon in its first four fields.
  lemma ParseIff(s: string, b: BRN)
    ensures Parse(s) == Ok(b) <==> String(b) == s && PlainSections(b)
  {
    hide SplitN, Join, String, Cut, Plain;
    StringIsJoin(b);
    SplitNIff(s, 6, Sections(b));
    SectionsCut(b);
    PrintedPrefix(b);
    if "brn:" <= s {
      FirstSection(s);
      var sections := SplitN(s, 6);
      if |sections| == 6 && Parse(s) == Ok(b) {
        assert sections == Sections(b);
      }
    }
  }

  lemma SectionsCut(b: BRN)
    ensures Cut(Sections(b), 6) <==> PlainSections(b)
  {
    BrnPlain();
    hide Plain;
    var s := Sections(b);
    assert s[0] == "brn" && s[1] == b.partition && s[2] == b.service && s[3] == b.region && s[4] == b.accountID;
  }

  lemma BrnPlain()
    ensures Plain("brn")
  {
  }

  lemma PrintedPrefix(b: BRN)
    ensures "brn:" <= String(b)
  {
  }

  lemma FirstSection(s: string)
    requires "brn:" <= s
    ensures SplitN(s, 6) != [] && SplitN(s, 6)[0] == "brn"
  {
    BrnPlain();
    assert s == "brn" + ":" + s[4..];
    SplitTwo("brn", s[4..], 6);
  }

  // Printing undoes parsing on every accepted text.
  lemma StringUndoesParse(s: string)
    ensures Parse(s).Ok? ==> String(Parse(s).value) == s
  {
    if Parse(s).Ok? {
      ParseIff(s, Parse(s).value);
    }
  }

  // A text with the prefix is refused only for having fewer than five colons.
  lemma RefusedIff(s: string)
    ensures Parse(s).Ok? <==> "brn:" <= s && multiset(s)[':'] >= 5
    ensures Parse(s) == Err(InvalidPrefix) <==> !("brn:" <= s)
  {
    SplitCount(s, 6);
  }

  // Parsing undoes printing exactly when the first four fields have no colon.
  lemma ParseUndoesStringIff(b: BRN)
    ensures Parse(String(b)) == Ok(b) <==> PlainSections(b)
  {
    ParseIff(String(b), b);
  }

  // ---------------------------------------------------------------------------
  // Qualifiers

  predicate IsDigit(c: char) { '0' <= c <= '9' }

  predicate IsLower(c: char) { 'a' <= c <= 'z' }

  predicate IsUpper(c: char) { 'A' <= c <= 'Z' }

  // Letters, digits, hyphens and underscores, at least one.
  predicate IsName(s: string) {
    s != "" && forall c :: c in s ==> IsLower(c) || IsUpper(c) || IsDigit(c) || c == '-' || c == '_'
  }

  predicate IsVersion(s: string) {
    s == "$LATEST" || (s != "" && forall c :: c in s ==> IsDigit(c))
  }

  predicate IsQualifier(s: string) {
    s == "$LATEST" || IsName(s)
  }

  // Version and alias; a qualifier that is neither gives two empty texts.
  function GetVersionAndAlias(qualifier: string): (string, string) {
    if IsVersion(qualifier) then (qualifier, "")
    else if IsName(qualifier) then ("", qualifier)
    else ("", "")
  }

  // What a qualifier means: "$LATEST" and numbers are versions, every other name is an
  // alias, and anything else is neither.
  lemma QualifierMeaning(q: string)
    ensures var (version, alias) := GetVersionAndAlias(q);
            && version == (if q == "$LATEST" || IsNumeral(q) then q else "")
            && alias == (if IsName(q) && !IsNumeral(q) then q else "")
            && (version == "" || alias == "")
            && (version + alias == q <==> q == "" || q == "$LATEST" || IsName(q))
  {
    if q == "$LATEST" {
      assert '$' in q;
    }
  }

  predicate IsNumeral(q: string) {
    q != "" && forall c :: c in q ==> '0' <= c <= '9'
  }

  // ---------------------------------------------------------------------------
  // Function names

  datatype FunctionBRN = FunctionBRN(brn: BRN, functionName: string, version: string, alias: string)

  // The account id is the digest of the user's id.
  function GenerateFunctionBRN(region: string, accountID: string, functionName: string, qualifier: string): FunctionBRN {
    if |qualifier| > 0 then
      var (version, alias) := GetVersionAndAlias(qualifier);
      var resource := "function:" + functionName + ":" + qualifier;
      FunctionBRN(BRN("cloud", "faas", region, accountID, resource), functionName, version, alias)
    else
      FunctionBRN(BRN("cloud", "faas", region, accountID, "function:" + functionName), functionName, "", "")
  }

  function FunctionOf(b: BRN): Result<FunctionBRN> {
    var parts := SplitN(b.resource, 3);
    if |parts| < 2 || parts[0] != "function" then Err(InvalidFunctionBrn)
    else if |parts| == 3 then
      var (version, alias) := GetVersionAndAlias(parts[2]);
      Ok(FunctionBRN(b, parts[1], version, alias))
    else Ok(FunctionBRN(b, parts[1], "", ""))
  }

  function ParseFunction(s: string): Result<FunctionBRN> {
    match Parse(s)
    case Err(e) => Err(e)
    case Ok(b) => FunctionOf(b)
  }

  lemma JoinResource(name: string, qualifier: string)
    ensures Join(["function", name]) == "function:" + name
    ensures Join(["function", name, qualifier]) == "function:" + name + ":" + qualifier
  {
    JoinTwo("function", [name]);
    JoinTwo(name, [qualifier]);
    JoinTwo("function", [name, qualifier]);
    assert ["function"] + [name] == ["function", name] && [name] + [qualifier] == [name, qualifier];
    assert ["function"] + [name, qualifier] == ["function", name, qualifier];
    assert "function" + ":" == "function:";
    assert "function:" + (name + ":" + qualifier) == "function:" + name + ":" + qualifier;
  }

  lemma ResourceSplits(name: string, qualifier: string)
    requires Plain(name)
    ensures SplitN("function:" + name, 3) == ["function", name]
    ensures SplitN("function:" + name + ":" + qualifier, 3) == ["function", name, qualifier]
  {
    JoinResource(name, qualifier);
    SplitNIff("function:" + name, 3, ["function", name]);
    SplitNIff("function:" + name + ":" + qualifier, 3, ["function", name, qualifier]);
  }

  // A resource that reads as a function is "function", the name and perhaps a
  // qualifier, and the other way round.
  lemma FunctionOfIff(b: BRN, name: string, qualifier: string)
    ensures b.resource == "function:" + name && Plain(name) ==> FunctionOf(b) == Ok(FunctionBRN(b, name, "", ""))
    ensures b.resource == "function:" + name + ":" + qualifier && Plain(name) ==>
              var (version, alias) := GetVersionAndAlias(qualifier);
              FunctionOf(b) == Ok(FunctionBRN(b, name, version, alias))
    ensures FunctionOf(b).Ok? ==> FunctionOf(b).value.brn == b && Plain(FunctionOf(b).value.functionName)
  {
    SplitIsCut(b.resource, 3);
    if Plain(name) {
      ResourceSplits(name, qualifier);
    }
    hide SplitN, Join, Plain, GetVersionAndAlias;
  }

  lemma OwnWordsPlain()
    ensures Plain("cloud") && Plain("faas")
  {
  }

  // Parsing undoes generating exactly when region and name have no colon.
  lemma ParseUndoesGenerateIff(region: string, accountID: string, name: string, qualifier: string)
    requires Plain(accountID)
    ensures var f := GenerateFunctionBRN(region, accountID, name, qualifier);
            ParseFunction(String(f.brn)) == Ok(f) <==> Plain(region) && Plain(name)
  {
    var f := GenerateFunctionBRN(region, accountID, name, qualifier);
    hide Plain, Parse, String, FunctionOf, GetVersionAndAlias, SplitN, Join;
    ParseUndoesStringIff(f.brn);
    FunctionOfIff(f.brn, name, qualifier);
    OwnWordsPlain();
    if ParseFunction(String(f.brn)) == Ok(f) {
      assert Parse(String(f.brn)).Ok? && FunctionOf(Parse(String(f.brn)).value) == Ok(f);
      FunctionOfIff(Parse(String(f.brn)).value, name, qualifier);
    }
  }

  // What an accepted function name is: its text is printed back, and it could have
  // been generated unless it ends in an empty qualifier.
  lemma AcceptedFunction(s: string)
    requires ParseFunction(s).Ok?
    ensures var f := ParseFunction(s).value;
            && String(f.brn) == s
            && (f.brn.partition == "cloud" && f.brn.service == "faas" ==>
               (Generable(f) <==> f.brn.resource != "function:" + f.functionName + ":"))
  {
    StringUndoesParse(s);
    var f := ParseFunction(s).value;
    FunctionOfIff(f.brn, "", "");
    if f.brn.partition == "cloud" && f.brn.service == "faas" {
      GenerableIff(f);
    }
  }

  ghost predicate Generable(f: FunctionBRN) {
    exists q :: f == GenerateFunctionBRN(f.brn.region, f.brn.accountID, f.functionName, q)
  }

  lemma ResourceRead(f: FunctionBRN) returns (q: string)
    requires FunctionOf(f.brn) == Ok(f)
    ensures || (f.brn.resource == "function:" + f.functionName && f.version == "" && f.alias == "")
            || (f.brn.resource == "function:" + f.functionName + ":" + q && (f.version, f.alias) == GetVersionAndAlias(q))
  {
    hide SplitN, Join, Plain, GetVersionAndAlias;
    var parts := SplitN(f.brn.resource, 3);
    SplitIsCut(f.brn.resource, 3);
    q := if |parts| == 3 then parts[2] else "";
    assert parts == if |parts| == 3 then ["function", f.functionName, q] else ["function", f.functionName];
    JoinResource(f.functionName, q);
  }

  lemma GenerableIff(f: FunctionBRN)
    requires FunctionOf(f.brn) == Ok(f) && f.brn.partition == "cloud" && f.brn.service == "faas"
    ensures Generable(f) <==> f.brn.resource != "function:" + f.functionName + ":"
  {
    hide FunctionOf;
    var q := ResourceRead(f);
    hide GetVersionAndAlias;
    var name := f.functionName;
    if f.brn.resource == "function:" + name {
      assert f == GenerateFunctionBRN(f.brn.region, f.brn.accountID, name, "");
    } else if q != "" {
      assert f == GenerateFunctionBRN(f.brn.region, f.brn.accountID, name, q);
    } else {
      assert "function:" + name + ":" + q == "function:" + name + ":";
      forall q'
        ensures |GenerateFunctionBRN(f.brn.region, f.brn.accountID, name, q').brn.resource| != |f.brn.resource|
      {
      }
    }
  }

  // ---------------------------------------------------------------------------
  // The names callers may use

  // "cloud" followed by letters and hyphens.
  predicate IsPartition(s: string) {
    "cloud" <= s && forall c :: c in s[5..] ==> IsLower(c) || IsUpper(c) || c == '-'
  }

  // Two to five letters followed by digits.
  predicate IsRegion(s: string) {
    exists k :: 2 <= k <= 5 && k <= |s| && (forall c :: c in s[..k] ==> IsLower(c)) && (forall c :: c in s[k..] ==> IsDigit(c))
  }

  predicate IsAccountID(s: string) {
    |s| == 32 && forall c :: c in s ==> IsLower(c) || IsDigit(c)
  }

  // The two patterns, read off the pieces between the colons.
  predicate IsFunctionBrn(s: string) {
    var p := Split(s);
    && (|p| == 7 || |p| == 8)
    && p[0] == "brn" && IsPartition(p[1]) && p[2] == "faas" && IsRegion(p[3]) && IsAccountID(p[4])
    && p[5] == "function" && IsName(p[6]) && (|p| == 8 ==> IsQualifier(p[7]))
  }

  predicate IsPartialBrn(s: string) {
    var p := Split(s);
    || (|p| == 1 && IsName(p[0]))
    || (|p| == 2 && IsName(p[0]) && IsQualifier(p[1]))
    || (|p| == 3 && IsAccountID(p[0]) && IsName(p[1]) && IsQualifier(p[2]))
  }

  datatype FName = FName(thumbnailName: string, version: string, alias: string)

  function DealFName(accountID: string, fName: string): Result<FName> {
    if IsFunctionBrn(fName) then
      match ParseFunction(fName)
      case Err(e) => Err(e)
      case Ok(f) => Ok(FName(f.functionName, f.version, f.alias))
    else if IsPartialBrn(fName) then
      var p := Split(fName);
      if |p| == 1 then Ok(FName(p[0], "", ""))
      else if |p| == 2 then
        if accountID != "" && accountID <= fName then Ok(FName(p[1], "", ""))
        else
          var (version, alias) := GetVersionAndAlias(p[1]);
          Ok(FName(p[0], version, alias))
      else if accountID != "" && accountID != p[0] then Err(NotMatched)
      else
        var (version, alias) := GetVersionAndAlias(p[2]);
        Ok(FName(p[1], version, alias))
    else Err(NotMatched)
  }

  // ---------------------------------------------------------------------------
  // The patterns as written

  // An optional colon and qualifier at the end.
  predicate IsTail(tail: string) {
    tail == "" || (":" <= tail && IsQualifier(tail[1..]))
  }

  predicate FunctionParts(partition: string, region: string, account: string, name: string) {
    IsPartition(partition) && IsRegion(region) && IsAccountID(account) && IsName(name)
  }

  function FullName(partition: string, region: string, account: string, name: string, tail: string): BRN {
    BRN(partition, "faas", region, account, "function:" + name + tail)
  }

  ghost predicate MatchesBrnPattern(s: string) {
    exists partition, region, account, name, tail ::
      FunctionParts(partition, region, account, name) && IsTail(tail) && String(FullName(partition, region, account, name, tail)) == s
  }

  // An optional account id and colon at the front.
  predicate IsHead(head: string) {
    head == "" || (|head| == 33 && IsAccountID(head[..32]) && head[32] == ':')
  }

  predicate PartialMatch(s: string, head: string, name: string, tail: string) {
    IsHead(head) && IsName(name) && IsTail(tail) && s == head + name + tail
  }

  ghost predicate MatchesPartialPattern(s: string) {
    exists head, name, tail :: PartialMatch(s, head, name, tail)
  }

  lemma NamesPlain(s: string)
    ensures IsName(s) || IsQualifier(s) || IsAccountID(s) || IsPartition(s) || IsRegion(s) ==> Plain(s)
    ensures IsAccountID(s) ==> IsName(s)
    ensures IsName(s) ==> IsQualifier(s)
  {
    if IsPartition(s) {
      assert s == s[..5] + s[5..] && s[..5] == "cloud";
    }
    if IsRegion(s) {
      var k :| 2 <= k <= 5 && k <= |s| && (forall c :: c in s[..k] ==> IsLower(c)) && (forall c :: c in s[k..] ==> IsDigit(c));
      assert s == s[..k] + s[k..];
    }
  }

  lemma SplitString(b: BRN)
    requires PlainSections(b)
    ensures Split(String(b)) == ["brn", b.partition, b.service, b.region, b.accountID] + Split(b.resource)
  {
    hide Plain, SplitN, Join, String;
    var rest := Split(b.resource);
    SplitIff(b.resource, rest);
    var parts := ["brn", b.partition, b.service, b.region, b.accountID] + rest;
    FrontJoin(b, rest);
    BrnPlain();
    SplitIff(String(b), parts);
  }

  lemma FrontJoin(b: BRN, rest: seq<string>)
    requires rest != [] && Join(rest) == b.resource
    ensures Join(["brn", b.partition, b.service, b.region, b.accountID] + rest) == String(b)
  {
    hide Join, String;
    StringIsJoin(b);
    var r1 := [b.accountID] + rest;
    var r2 := [b.region] + r1;
    var r3 := [b.service] + r2;
    var r4 := [b.partition] + r3;
    assert ["brn", b.partition, b.service, b.region, b.accountID] + rest == ["brn"] + r4;
    JoinTwo(b.accountID, rest); JoinTwo(b.region, r1); JoinTwo(b.service, r2); JoinTwo(b.partition, r3); JoinTwo("brn", r4);
    var q1 := [b.accountID] + [b.resource];
    var q2 := [b.region] + q1;
    var q3 := [b.service] + q2;
    var q4 := [b.partition] + q3;
    assert Sections(b) == ["brn"] + q4;
    assert Join([b.resource]) == b.resource by { JoinOne(b.resource); }
    JoinTwo(b.accountID, [b.resource]); JoinTwo(b.region, q1); JoinTwo(b.service, q2); JoinTwo(b.partition, q3); JoinTwo("brn", q4);
  }

  lemma JoinOne(p: string)
    ensures Join([p]) == p
  {
  }

  function PartsOf(name: string, tail: string): seq<string> {
    if tail == "" then ["function", name] else ["function", name, tail[1..]]
  }

  lemma TailText(name: string, tail: string)
    requires IsTail(tail)
    ensures "function:" + name + tail
         == if tail == "" then "function:" + name else "function:" + name + ":" + tail[1..]
  {
    hide IsQualifier;
    var front := "function:" + name;
    if tail == "" {
      assert front + tail == front;
    } else {
      assert front + tail == front + ":" + tail[1..];
    }
  }

  lemma TailSplits(name: string, tail: string)
    requires IsName(name) && IsTail(tail)
    ensures Split("function:" + name + tail) == PartsOf(name, tail)
  {
    NamesPlain(name);
    NamesPlain(if tail == "" then name else tail[1..]);
    FunctionPlain();
    TailText(name, tail);
    hide IsName, IsQualifier, Plain, SplitN, Join;
    JoinResource(name, if tail == "" then "" else tail[1..]);
    SplitIff("function:" + name + tail, PartsOf(name, tail));
  }

  lemma FunctionPlain()
    ensures Plain("function")
  {
  }

  // Reading the pieces between the colons is matching the full pattern.
  lemma BrnPatternIff(s: string)
    ensures IsFunctionBrn(s) <==> MatchesBrnPattern(s)
  {
    if MatchesBrnPattern(s) {
      var partition, region, account, name, tail :|
        FunctionParts(partition, region, account, name) && IsTail(tail) && String(FullName(partition, region, account, name, tail)) == s;
      FullNameMatches(partition, region, account, name, tail);
    }
    if IsFunctionBrn(s) {
      MatchFound(s);
    }
  }

  lemma FullNameMatches(partition: string, region: string, account: string, name: string, tail: string)
    requires FunctionParts(partition, region, account, name) && IsTail(tail)
    ensures IsFunctionBrn(String(FullName(partition, region, account, name, tail)))
    ensures PlainSections(FullName(partition, region, account, name, tail))
  {
    NamesPlain(partition); NamesPlain(region); NamesPlain(account);
    hide String, SplitN, IsPartition, IsRegion, IsAccountID, IsName, IsQualifier;
    OwnWordsPlain();
    var b := FullName(partition, region, account, name, tail);
    TailSplits(name, tail);
    SplitString(b);
  }

  lemma MatchFound(s: string)
    requires IsFunctionBrn(s)
    ensures MatchesBrnPattern(s)
  {
    hide String, SplitN, Join, IsPartition, IsRegion, IsAccountID, IsName, IsQualifier, Plain;
    var p := Split(s);
    SplitIff(s, p);
    var rest := p[5..];
    var tail := if |p| == 8 then ":" + p[7] else "";
    assert rest == if |p| == 8 then ["function", p[6], p[7]] else ["function", p[6]];
    JoinResource(p[6], if |p| == 8 then p[7] else "");
    assert tail != "" ==> tail[1..] == p[7];
    TailText(p[6], tail);
    assert FunctionParts(p[1], p[3], p[4], p[6]);
    FoundString(p, rest, tail);
  }

  lemma FoundString(p: seq<string>, rest: seq<string>, tail: string)
    requires |p| >= 7 && rest == p[5..] && p[0] == "brn" && p[2] == "faas" && Join(rest) == "function:" + p[6] + tail
    ensures String(FullName(p[1], p[3], p[4], p[6], tail)) == Join(p)
  {
    hide String, Join;
    var b := FullName(p[1], p[3], p[4], p[6], tail);
    assert p == ["brn", b.partition, b.service, b.region, b.accountID] + rest;
    FrontJoin(b, rest);
  }

  lemma TwoSplits(a: string, b: string, c: string)
    requires Plain(a) && Plain(b) && Plain(c)
    ensures Split(a) == [a] && Split(a + ":" + b) == [a, b] && Split(a + ":" + b + ":" + c) == [a, b, c]
  {
    hide Plain, SplitN;
    JoinTwo(a, [b]); JoinTwo(b, [c]); JoinTwo(a, [b, c]);
    assert [a] + [b] == [a, b] && [b] + [c] == [b, c] && [a] + [b, c] == [a, b, c];
    assert a + ":" + (b + ":" + c) == a + ":" + b + ":" + c;
    SplitIff(a, [a]); SplitIff(a + ":" + b, [a, b]); SplitIff(a + ":" + b + ":" + c, [a, b, c]);
  }

  // Reading the pieces between the colons is matching the short pattern.
  lemma PartialPatternIff(s: string)
    ensures IsPartialBrn(s) <==> MatchesPartialPattern(s)
  {
    if MatchesPartialPattern(s) {
      var head, name, tail :| PartialMatch(s, head, name, tail);
      PartialMatches(s, head, name, tail);
    }
    if IsPartialBrn(s) {
      PartialFound(s);
    }
  }

  lemma PartialMatches(s: string, head: string, name: string, tail: string)
    requires PartialMatch(s, head, name, tail)
    ensures IsPartialBrn(s)
  {
    hide SplitN, IsName, IsQualifier, Plain;
    NamesPlain(name);
    var qualifier := if tail == "" then name else tail[1..];
    NamesPlain(qualifier);
    assert tail != "" ==> tail == ":" + qualifier;
    if head == "" {
      TwoSplits(name, qualifier, name);
      assert s == if tail == "" then name else name + ":" + qualifier;
    } else {
      var account := head[..32];
      NamesPlain(account);
      assert head == account + ":";
      TwoSplits(account, name, qualifier);
      hide IsAccountID, IsHead;
      assert tail == "" ==> s == account + ":" + name;
      assert tail != "" ==> s == account + ":" + name + ":" + qualifier;
    }
  }

  lemma PartialFound(s: string)
    requires IsPartialBrn(s)
    ensures MatchesPartialPattern(s)
  {
    var p := Split(s);
    SplitIff(s, p);
    assert |p| == 3 ==> |p[0]| == 32;
    hide SplitN, IsName, IsQualifier, IsAccountID, Plain;
    if |p| == 1 {
      assert PartialMatch(s, "", p[0], "");
    } else if |p| == 2 {
      assert s == p[0] + ":" + p[1];
      assert (":" + p[1])[1..] == p[1];
      assert PartialMatch(s, "", p[0], ":" + p[1]);
    } else {
      assert p == [p[0], p[1], p[2]];
      ThreeFound(s, p[0], p[1], p[2]);
    }
  }

  lemma ThreeFound(s: string, account: string, name: string, qualifier: string)
    requires Join([account, name, qualifier]) == s && IsAccountID(account) && IsName(name) && IsQualifier(qualifier)
    ensures PartialMatch(s, account + ":", name, ":" + qualifier)
  {
    hide IsName, IsQualifier;
    var head, tail := account + ":", ":" + qualifier;
    JoinTwo(name, [qualifier]);
    JoinTwo(account, [name, qualifier]);
    assert [account] + [name, qualifier] == [account, name, qualifier] && [name] + [qualifier] == [name, qualifier];
    assert tail[1..] == qualifier && head[..32] == account && head[32] == ':';
    assert s == head + name + tail;
  }

  // ---------------------------------------------------------------------------
  // What each way of naming a function gives

  // The function of that name in the version or under the alias that a well-formed
  // qualifier stands for.
  function Named(name: string, qualifier: string): FName {
    if qualifier == "$LATEST" || IsNumeral(qualifier) then FName(name, qualifier, "") else FName(name, "", qualifier)
  }

  lemma NamedByQualifier(name: string, qualifier: string)
    requires IsQualifier(qualifier)
    ensures var (version, alias) := GetVersionAndAlias(qualifier); FName(name, version, alias) == Named(name, qualifier)
  {
    QualifierMeaning(qualifier);
  }

  // A full name gives the function, whatever account asks.
  lemma FullForm(accountID: string, partition: string, region: string, account: string, name: string, tail: string)
    requires FunctionParts(partition, region, account, name) && IsTail(tail)
    ensures DealFName(accountID, String(FullName(partition, region, account, name, tail)))
         == Ok(if tail == "" then FName(name, "", "") else Named(name, tail[1..]))
  {
    hide String, Parse, FunctionOf, SplitN, IsPartition, IsRegion, IsAccountID, IsName, IsQualifier, GetVersionAndAlias, Plain;
    var b := FullName(partition, region, account, name, tail);
    FullNameMatches(partition, region, account, name, tail);
    NamesPlain(name);
    ParseUndoesStringIff(b);
    TailText(name, tail);
    FunctionOfIff(b, name, if tail == "" then "" else tail[1..]);
    if tail != "" {
      NamedByQualifier(name, tail[1..]);
    }
    hide Named;
  }

  // A bare name is the function without version and alias.
  lemma BareForm(accountID: string, name: string)
    requires IsName(name)
    ensures DealFName(accountID, name) == Ok(FName(name, "", ""))
  {
    NamesPlain(name);
    TwoSplits(name, name, name);
    hide SplitN, IsName, Plain;
  }

  // With an account in front, the function if the account asking is that one or none.
  lemma AccountForm(accountID: string, account: string, name: string, qualifier: string)
    requires IsAccountID(account) && IsName(name) && IsQualifier(qualifier)
    ensures DealFName(accountID, account + ":" + name + ":" + qualifier)
         == if accountID == "" || accountID == account then Ok(Named(name, qualifier)) else Err(NotMatched)
  {
    NamesPlain(account); NamesPlain(name); NamesPlain(qualifier);
    TwoSplits(account, name, qualifier);
    NamedByQualifier(name, qualifier);
    hide SplitN, IsName, IsQualifier, IsAccountID, GetVersionAndAlias, Named;
  }

  // Two pieces are an account and a name, or a name and a qualifier.
  lemma TwoPieces(accountID: string, a: string, b: string)
    requires IsName(a) && IsQualifier(b)
    ensures DealFName(accountID, a + ":" + b)
         == Ok(if accountID != "" && accountID <= a + ":" + b then FName(b, "", "") else Named(a, b))
    ensures Named(a, b) != FName(b, "", "")
  {
    NamesPlain(a); NamesPlain(b);
    TwoSplits(a, b, a);
    NamedByQualifier(a, b);
    assert b != "";
    hide SplitN, IsName, Plain, GetVersionAndAlias;
  }

  // Without one, the function exactly when the text does not start with the account.
  lemma ShortFormIff(accountID: string, name: string, qualifier: string)
    requires IsName(name) && IsQualifier(qualifier)
    ensures var s := name + ":" + qualifier;
            DealFName(accountID, s) == Ok(Named(name, qualifier)) <==> accountID == "" || !(accountID <= s)
  {
    hide DealFName, IsName, IsQualifier, GetVersionAndAlias, Named;
    TwoPieces(accountID, name, qualifier);
  }

  // An account and a name are told from a name and a qualifier by the account asking.
  lemma AccountNameIff(accountID: string, account: string, name: string)
    requires IsAccountID(account) && IsName(name)
    ensures var s := account + ":" + name;
            DealFName(accountID, s) == Ok(FName(name, "", "")) <==> accountID != "" && accountID <= s
  {
    hide DealFName, IsName, IsQualifier, GetVersionAndAlias, Named;
    NamesPlain(account);
    NamesPlain(name);
    TwoPieces(accountID, account, name);
  }

  // The three ways of naming a qualified function agree, for the owner's account,
  // exactly when the shortest does not start with the account id.
  lemma FormsAgreeIff(partition: string, region: string, account: string, name: string, qualifier: string)
    requires FunctionParts(partition, region, account, name) && IsQualifier(qualifier)
    ensures var full := DealFName(account, String(FullName(partition, region, account, name, ":" + qualifier)));
            && full == Ok(Named(name, qualifier))
            && full == DealFName(account, account + ":" + name + ":" + qualifier)
            && (full == DealFName(account, name + ":" + qualifier) <==> !(account <= name + ":" + qualifier))
  {
    assert (":" + qualifier)[1..] == qualifier;
    FullForm(account, partition, region, account, name, ":" + qualifier);
    AccountForm(account, account, name, qualifier);
    ShortFormIff(account, name, qualifier);
  }

  // A text is refused exactly when it matches neither pattern, or names an account
  // other than the one asking.
  lemma RefusedNameIff(accountID: string, s: string)
    ensures DealFName(accountID, s) == Err(NotMatched) <==>
              !MatchesBrnPattern(s) &&
              (!MatchesPartialPattern(s) || (|Split(s)| == 3 && accountID != "" && accountID != Split(s)[0]))
    ensures DealFName(accountID, s).Err? ==> DealFName(accountID, s).error == NotMatched
  {
    BrnPatternIff(s);
    PartialPatternIff(s);
    if MatchesBrnPattern(s) {
      var partition, region, account, name, tail :|
        FunctionParts(partition, region, account, name) && IsTail(tail) && String(FullName(partition, region, account, name, tail)) == s;
      FullForm(accountID, partition, region, account, name, tail);
    }
  }
}
