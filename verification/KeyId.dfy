/**
 Key-ID templates (internal/policy/keyid.go): the scan for ${name} references,
 the check at load time and the expansion at request time. Strings are byte
 strings, one char per byte.
 */
module KeyId {
  import opened Base

  const MAX_KEY_ID_LENGTH := 256

  /** A claim of a verified token, as far as matching and expansion look at it. */
  datatype ClaimValue = Text(text: string) | Number(number: real) | Other

  type Claims = map<string, ClaimValue>

  /** One byte of literal text, or one whole ${name}. */
  datatype Token = Ch(c: char) | Ref(name: string)

  /** Some prefix of s is a match of the reference pattern, and n is its length. */
  ghost predicate IsMatch(s: string, n: nat) {
    3 <= n <= |s| && s[0] == '$' && s[1] == '{' && s[n - 1] == '}' && forall j :: 2 <= j < n - 1 ==> s[j] != '}'
  }

  /** The index of the first '}' at or after from, or the length of s. */
  function ClosingBrace(s: string, from: nat): (i: nat)
    requires from <= |s|
    ensures from <= i <= |s|
    ensures forall j :: from <= j < i ==> s[j] != '}'
    ensures i < |s| ==> s[i] == '}'
    decreases |s| - from
  {
    if from == |s| || s[from] == '}' then from else ClosingBrace(s, from + 1)
  }

  predicate StartsRef(s: string) {
    2 <= |s| && s[0] == '$' && s[1] == '{' && ClosingBrace(s, 2) < |s|
  }

  /** The leftmost, non-overlapping matches of the reference pattern and the text between them. */
  function Scan(s: string): seq<Token>
    decreases |s|
  {
    if s == "" then []
    else if StartsRef(s) then
      var close := ClosingBrace(s, 2);
      [Ref(s[2..close])] + Scan(s[close + 1..])
    else [Ch(s[0])] + Scan(s[1..])
  }

  function PrintToken(t: Token): string {
    match t
    case Ch(c) => [c]
    case Ref(name) => ['$', '{'] + name + ['}']
  }

  function Print(ts: seq<Token>): string {
    if ts == [] then "" else PrintToken(ts[0]) + Print(ts[1..])
  }

  /** The text left when every reference is removed. */
  function Literals(ts: seq<Token>): string {
    if ts == [] then ""
    else (if ts[0].Ch? then [ts[0].c] else "") + Literals(ts[1..])
  }

  /** The names referenced, in order, repeats included. */
  function Refs(ts: seq<Token>): seq<string> {
    if ts == [] then []
    else (if ts[0].Ref? then [ts[0].name] else []) + Refs(ts[1..])
  }

  // -------------------------------------------------------------- scanning and printing

  /**
   What a leftmost, non-overlapping scan yields, said without scanning: names
   hold no '}', and no match starts at a byte of literal text.
   */
  ghost predicate Normal(ts: seq<Token>)
    decreases |ts|
  {
    ts == [] ||
    (&& (ts[0].Ref? ==> '}' !in ts[0].name)
     && (ts[0].Ch? ==> forall n :: !IsMatch(Print(ts), n))
     && Normal(ts[1..]))
  }

  /** The scan finds a match at the front exactly when there is one, and finds the only one. */
  lemma StartsRefMatches(s: string, n: nat)
    ensures StartsRef(s) ==> IsMatch(s, ClosingBrace(s, 2) + 1)
    ensures IsMatch(s, n) ==> StartsRef(s) && n == ClosingBrace(s, 2) + 1
  {
  }

  lemma PrintCons(t: Token, ts: seq<Token>)
    ensures Print([t] + ts) == PrintToken(t) + Print(ts)
  {
    assert ([t] + ts)[1..] == ts;
  }

  /** A string that starts with a reference, cut after it. */
  lemma CutRef(s: string)
    requires StartsRef(s)
    ensures var close := ClosingBrace(s, 2); s == PrintToken(Ref(s[2..close])) + s[close + 1..]
  {
  }

  lemma {:induction false} PrintScan(s: string)
    ensures Print(Scan(s)) == s
    decreases |s|
  {
    if s != "" {
      if StartsRef(s) {
        var close := ClosingBrace(s, 2);
        PrintScan(s[close + 1..]);
        PrintCons(Ref(s[2..close]), Scan(s[close + 1..]));
        CutRef(s);
      } else {
        PrintScan(s[1..]);
        PrintCons(Ch(s[0]), Scan(s[1..]));
      }
    }
  }

  lemma {:induction false} ScanIsNormal(s: string)
    ensures Normal(Scan(s))
    decreases |s|
  {
    if s != "" {
      PrintScan(s);
      if StartsRef(s) {
        var close := ClosingBrace(s, 2);
        ScanIsNormal(s[close + 1..]);
        assert Scan(s)[1..] == Scan(s[close + 1..]);
      } else {
        ScanIsNormal(s[1..]);
        assert Scan(s)[1..] == Scan(s[1..]);
        forall n ensures !IsMatch(s, n) {
          if IsMatch(s, n) {
            StartsRefMatches(s, n);
          }
        }
      }
    }
  }

  /** A printed reference in front of anything is scanned off first. */
  lemma ScanRef(name: string, rest: string)
    requires '}' !in name
    ensures Scan(PrintToken(Ref(name)) + rest) == [Ref(name)] + Scan(rest)
  {
    var s := PrintToken(Ref(name)) + rest;
    var n := |name| + 3;
    assert forall j :: 2 <= j < n - 1 ==> s[j] == name[j - 2];
    StartsRefMatches(s, n);
    assert s[2..n - 1] == name && s[n..] == rest;
  }

  lemma ScanCh(c: char, rest: string)
    requires forall n :: !IsMatch([c] + rest, n)
    ensures Scan([c] + rest) == [Ch(c)] + Scan(rest)
  {
    var s := [c] + rest;
    StartsRefMatches(s, 0);
    assert !StartsRef(s);
    assert s[1..] == rest;
  }

  lemma {:induction false} ScanPrint(ts: seq<Token>)
    requires Normal(ts)
    ensures Scan(Print(ts)) == ts
    decreases |ts|
  {
    if ts != [] {
      var rest := ts[1..];
      ScanPrint(rest);
      ScanFirst(ts);
      assert ts == [ts[0]] + rest;
    }
  }

  lemma ScanFirst(ts: seq<Token>)
    requires ts != [] && Normal(ts)
    ensures Scan(Print(ts)) == [ts[0]] + Scan(Print(ts[1..]))
  {
    var text := Print(ts[1..]);
    assert Print(ts) == PrintToken(ts[0]) + text;
    match ts[0]
    case Ref(name) => ScanRef(name, text);
    case Ch(c) => ScanCh(c, text);
  }

  /**
   Scanning and printing are inverse: every string prints back from its scan,
   and the scan is the one normal token list that does.
   */
  lemma ScanPrintInverse(s: string, ts: seq<Token>)
    ensures Print(Scan(s)) == s && Normal(Scan(s))
    ensures Normal(ts) && Print(ts) == s <==> ts == Scan(s)
  {
    PrintScan(s);
    ScanIsNormal(s);
    if Normal(ts) {
      ScanPrint(ts);
    }
  }

  // ------------------------------------------------------------------ the load-time check

  predicate IsLower(c: char) { 'a' <= c <= 'z' }
  predicate IsUpper(c: char) { 'A' <= c <= 'Z' }
  predicate IsDigit(c: char) { '0' <= c <= '9' }

  /** [a-z0-9_] */
  predicate NameChar(c: char) {
    IsLower(c) || IsDigit(c) || c == '_'
  }

  /** [A-Za-z0-9._/:@-] */
  predicate KeyIdChar(c: char) {
    IsLower(c) || IsUpper(c) || IsDigit(c) || c in "._/:@-"
  }

  predicate ClaimName(s: string) {
    s != "" && forall i :: 0 <= i < |s| ==> NameChar(s[i])
  }

  predicate ClaimNames(names: seq<string>) {
    forall i :: 0 <= i < |names| ==> ClaimName(names[i])
  }

  predicate KeyIdText(s: string) {
    forall i :: 0 <= i < |s| ==> KeyIdChar(s[i])
  }

  predicate KeyIdValue(s: string) {
    s != "" && KeyIdText(s)
  }

  datatype TemplateError =
    | MalformedReference
    | InvalidName(name: string)
    | BadLiteral

  /** Every token on its own is one the key ID may contain. */
  predicate AcceptedTokens(ts: seq<Token>) {
    forall i :: 0 <= i < |ts| ==>
      && (ts[i].Ch? ==> KeyIdChar(ts[i].c))
      && (ts[i].Ref? ==> ClaimName(ts[i].name))
  }

  /** The template passes the load-time check. */
  predicate AcceptedTemplate(tmpl: string) {
    AcceptedTokens(Scan(tmpl))
  }

  /** The first of the names that is not a claim name. */
  predicate FirstBadName(names: seq<string>, name: string) {
    exists i :: 0 <= i < |names| && names[i] == name && !ClaimName(name) && ClaimNames(names[..i])
  }

  /** templateVars: the whole check, run over the stripped text and the list of names. */
  method TemplateVars(tmpl: string) returns (r: Result<seq<string>, TemplateError>)
    ensures r.Ok? <==> AcceptedTemplate(tmpl)
    ensures r.Ok? ==> r.value == Refs(Scan(tmpl))
    ensures r == Err(MalformedReference) <==> '$' in Literals(Scan(tmpl))
    ensures r.Err? && r.error.InvalidName? ==> FirstBadName(Refs(Scan(tmpl)), r.error.name)
    ensures r == Err(BadLiteral) ==> !KeyIdText(Literals(Scan(tmpl))) && ClaimNames(Refs(Scan(tmpl)))
  {
    var ts := Scan(tmpl);
    AcceptedByParts(ts);
    DollarsFromTemplate(tmpl);
    if '$' in tmpl {
      var stripped := Literals(ts);
      if '$' in stripped {
        return Err(MalformedReference);
      }
    }
    var found := Refs(ts);
    var vars: seq<string> := [];
    for i := 0 to |found|
      invariant vars == found[..i] && ClaimNames(found[..i])
    {
      var name := found[i];
      if !ClaimName(name) {
        return Err(InvalidName(name));
      }
      vars := vars + [name];
    }
    assert found[..|found|] == found;
    var literals := Literals(ts);
    if !KeyIdText(literals) {
      return Err(BadLiteral);
    }
    return Ok(vars);
  }

  /** Literal text is part of the template. */
  lemma {:induction false} LiteralsFromPrint(ts: seq<Token>, c: char)
    requires c !in Print(ts)
    ensures c !in Literals(ts)
  {
    if ts != [] {
      var s, rest := Print(ts), Print(ts[1..]);
      assert s == PrintToken(ts[0]) + rest;
      LiteralsFromPrint(ts[1..], c);
    }
  }

  lemma DollarsFromTemplate(tmpl: string)
    ensures '$' in Literals(Scan(tmpl)) ==> '$' in tmpl
  {
    if '$' !in tmpl {
      PrintScan(tmpl);
      LiteralsFromPrint(Scan(tmpl), '$');
    }
  }

  /**
   Checking the literals glued together and the names one by one accepts
   exactly when every token is acceptable by itself.
   */
  lemma {:induction false} AcceptedByParts(ts: seq<Token>)
    ensures AcceptedTokens(ts) <==> KeyIdText(Literals(ts)) && ClaimNames(Refs(ts))
    ensures KeyIdText(Literals(ts)) ==> '$' !in Literals(ts)
  {
    if ts != [] {
      var head, rest := ts[0], ts[1..];
      AcceptedByParts(rest);
      AcceptedCons(head, rest);
      assert ts == [head] + rest;
      match head
      case Ch(c) =>
        TextCons(c, Literals(rest));
        assert Refs(ts) == Refs(rest);
      case Ref(name) =>
        NamesCons(name, Refs(rest));
        assert Literals(ts) == Literals(rest);
    }
  }

  lemma AcceptedCons(t: Token, ts: seq<Token>)
    ensures AcceptedTokens([t] + ts) <==>
              (t.Ch? ==> KeyIdChar(t.c)) && (t.Ref? ==> ClaimName(t.name)) && AcceptedTokens(ts)
  {
    var all := [t] + ts;
    assert all[0] == t && forall i :: 0 <= i < |ts| ==> all[i + 1] == ts[i];
  }

  lemma TextCons(c: char, text: string)
    ensures KeyIdText([c] + text) <==> KeyIdChar(c) && KeyIdText(text)
  {
    var all := [c] + text;
    assert all[0] == c && forall i :: 0 <= i < |text| ==> all[i + 1] == text[i];
  }

  lemma NamesCons(name: string, names: seq<string>)
    ensures ClaimNames([name] + names) <==> ClaimName(name) && ClaimNames(names)
  {
    var all := [name] + names;
    assert all[0] == name && forall i :: 0 <= i < |names| ==> all[i + 1] == names[i];
  }

  /** Acceptable tokens contain no stray '$', so they are what a scan of their print yields. */
  lemma {:induction false} AcceptedIsNormal(ts: seq<Token>)
    requires AcceptedTokens(ts)
    ensures Normal(ts)
    decreases |ts|
  {
    if ts != [] {
      assert ts == [ts[0]] + ts[1..];
      AcceptedCons(ts[0], ts[1..]);
      AcceptedIsNormal(ts[1..]);
    }
  }

  /** The templates accepted at load time are exactly the prints of acceptable tokens. */
  lemma AcceptedTemplates(tmpl: string)
    ensures AcceptedTemplate(tmpl) <==> exists ts :: AcceptedTokens(ts) && Print(ts) == tmpl
  {
    PrintScan(tmpl);
    forall ts | AcceptedTokens(ts) && Print(ts) == tmpl ensures AcceptedTemplate(tmpl) {
      AcceptedIsNormal(ts);
      ScanPrint(ts);
    }
  }

  // ------------------------------------------------------------------------- expansion

  datatype KeyIdError =
    | Missing(name: string)
    | NotText(name: string)
    | BadValue(name: string)
    | TooLong
    | BadResult

  /** Why a referenced claim cannot be substituted, if it cannot. */
  function Fault(name: string, claims: Claims): Option<KeyIdError> {
    if name !in claims then Some(Missing(name))
    else if !claims[name].Text? then Some(NotText(name))
    else if !KeyIdValue(claims[name].text) then Some(BadValue(name))
    else None
  }

  /** The fault of the first reference that has one. */
  function FirstFault(names: seq<string>, claims: Claims): Option<KeyIdError> {
    if names == [] then None
    else if Fault(names[0], claims).Some? then Fault(names[0], claims)
    else FirstFault(names[1..], claims)
  }

  function ValueOf(name: string, claims: Claims): string {
    if name in claims && claims[name].Text? then claims[name].text else ""
  }

  function Expanded(t: Token, claims: Claims): string {
    match t
    case Ch(c) => [c]
    case Ref(name) => ValueOf(name, claims)
  }

  /** The template with every reference replaced by its claim. */
  function Substitute(ts: seq<Token>, claims: Claims): string {
    if ts == [] then ""
    else Expanded(ts[0], claims) + Substitute(ts[1..], claims)
  }

  /** What ExpandKeyID decides. */
  function KeyIdOf(tmpl: string, claims: Claims): Result<string, KeyIdError> {
    var ts := Scan(tmpl);
    var fault, out := FirstFault(Refs(ts), claims), Substitute(ts, claims);
    if fault.Some? then Err(fault.value)
    else if |out| > MAX_KEY_ID_LENGTH then Err(TooLong)
    else if !KeyIdValue(out) then Err(BadResult)
    else Ok(out)
  }

  lemma Regroup(a: string, b: string, c: string)
    ensures a + (b + c) == (a + b) + c
  {
  }

  lemma {:induction false} SubstituteSnoc(ts: seq<Token>, t: Token, claims: Claims)
    ensures Substitute(ts + [t], claims) == Substitute(ts, claims) + Expanded(t, claims)
  {
    var all := ts + [t];
    if ts == [] {
      assert all[0] == t && all[1..] == [];
    } else {
      SubstituteSnoc(ts[1..], t, claims);
      assert all[0] == ts[0] && all[1..] == ts[1..] + [t];
      Regroup(Expanded(ts[0], claims), Substitute(ts[1..], claims), Expanded(t, claims));
    }
  }

  lemma {:induction false} RefsSnoc(ts: seq<Token>, t: Token)
    ensures Refs(ts + [t]) == Refs(ts) + (if t.Ref? then [t.name] else [])
  {
    if ts == [] {
      assert ts + [t] == [t];
    } else {
      RefsSnoc(ts[1..], t);
      assert (ts + [t])[1..] == ts[1..] + [t];
    }
  }

  lemma {:induction false} FirstFaultAppend(a: seq<string>, b: seq<string>, claims: Claims)
    ensures FirstFault(a + b, claims)
            == if FirstFault(a, claims).Some? then FirstFault(a, claims) else FirstFault(b, claims)
  {
    if a == [] {
      assert a + b == b;
    } else {
      FirstFaultAppend(a[1..], b, claims);
      assert (a + b)[1..] == a[1..] + b;
    }
  }

  /** ExpandKeyID: the replacement callback runs token by token and remembers the first fault. */
  method ExpandKeyID(tmpl: string, claims: Claims) returns (r: Result<string, KeyIdError>)
    ensures r == KeyIdOf(tmpl, claims)
  {
    var ts := Scan(tmpl);
    var expandErr: Option<KeyIdError> := None;
    var out := "";
    for i := 0 to |ts|
      invariant expandErr == FirstFault(Refs(ts[..i]), claims)
      invariant expandErr.None? ==> out == Substitute(ts[..i], claims)
    {
      assert ts[..i + 1] == ts[..i] + [ts[i]];
      RefsSnoc(ts[..i], ts[i]);
      SubstituteSnoc(ts[..i], ts[i], claims);
      match ts[i]
      case Ch(c) =>
        out := out + [c];
        FirstFaultAppend(Refs(ts[..i]), [], claims);
      case Ref(name) =>
        FirstFaultAppend(Refs(ts[..i]), [name], claims);
        if expandErr.None? {
          if name !in claims {
            expandErr := Some(Missing(name));
          } else if !claims[name].Text? {
            expandErr := Some(NotText(name));
          } else if !KeyIdValue(claims[name].text) {
            expandErr := Some(BadValue(name));
          } else {
            out := out + claims[name].text;
          }
        }
    }
    assert ts[..|ts|] == ts;
    if expandErr.Some? {
      return Err(expandErr.value);
    }
    if |out| > MAX_KEY_ID_LENGTH {
      return Err(TooLong);
    }
    if !KeyIdValue(out) {
      return Err(BadResult);
    }
    return Ok(out);
  }

  /** The claim can be substituted: present, a string, and within the allowlist. */
  predicate Usable(name: string, claims: Claims) {
    name in claims && claims[name].Text? && KeyIdValue(claims[name].text)
  }

  predicate AllUsable(names: seq<string>, claims: Claims) {
    forall i :: 0 <= i < |names| ==> Usable(names[i], claims)
  }

  lemma UsableCons(name: string, names: seq<string>, claims: Claims)
    ensures AllUsable([name] + names, claims) <==> Usable(name, claims) && AllUsable(names, claims)
  {
    var all := [name] + names;
    assert all[0] == name && forall i :: 0 <= i < |names| ==> all[i + 1] == names[i];
  }

  function TotalLength(names: seq<string>, claims: Claims): nat {
    if names == [] then 0 else |ValueOf(names[0], claims)| + TotalLength(names[1..], claims)
  }

  lemma {:induction false} NoFault(names: seq<string>, claims: Claims)
    ensures FirstFault(names, claims).None? <==> AllUsable(names, claims)
    ensures FirstFault(names, claims) != Some(BadResult)
  {
    if names != [] {
      NoFault(names[1..], claims);
      assert names == [names[0]] + names[1..];
      UsableCons(names[0], names[1..], claims);
    }
  }

  lemma {:induction false} SubstituteLength(ts: seq<Token>, claims: Claims)
    ensures |Substitute(ts, claims)| == |Literals(ts)| + TotalLength(Refs(ts), claims)
  {
    if ts != [] {
      SubstituteLength(ts[1..], claims);
      if ts[0].Ref? {
        assert Refs(ts) == [ts[0].name] + Refs(ts[1..]);
        assert Refs(ts)[1..] == Refs(ts[1..]);
      } else {
        assert Refs(ts) == Refs(ts[1..]);
      }
    }
  }

  lemma {:induction false} SubstituteAllowed(ts: seq<Token>, claims: Claims)
    requires AcceptedTokens(ts) && AllUsable(Refs(ts), claims)
    ensures KeyIdText(Substitute(ts, claims))
    ensures ts != [] ==> Substitute(ts, claims) != ""
  {
    if ts != [] {
      var rest := ts[1..];
      assert ts == [ts[0]] + rest;
      AcceptedCons(ts[0], rest);
      if ts[0].Ref? {
        UsableCons(ts[0].name, Refs(rest), claims);
      } else {
        assert Refs(ts) == Refs(rest);
      }
      SubstituteAllowed(rest, claims);
    }
  }

  /**
   For an accepted, non-empty template expansion succeeds exactly when every
   name listed at load time is a usable claim and the lengths fit; the final
   re-check of the whole key ID never fails.
   */
  lemma ExpansionPredictable(tmpl: string, claims: Claims)
    requires AcceptedTemplate(tmpl) && tmpl != ""
    ensures var ts := Scan(tmpl);
      KeyIdOf(tmpl, claims).Ok? <==>
        && AllUsable(Refs(ts), claims)
        && |Literals(ts)| + TotalLength(Refs(ts), claims) <= 256
    ensures KeyIdOf(tmpl, claims) != Err(BadResult)
  {
    var ts := Scan(tmpl);
    NoFault(Refs(ts), claims);
    SubstituteLength(ts, claims);
    assert ts != [];
    if FirstFault(Refs(ts), claims).None? {
      SubstituteAllowed(ts, claims);
    }
  }

  lemma {:induction false} SubstituteAppend(a: seq<Token>, b: seq<Token>, claims: Claims)
    ensures Substitute(a + b, claims) == Substitute(a, claims) + Substitute(b, claims)
  {
    if a == [] {
      assert a + b == b;
    } else {
      var all := a + b;
      SubstituteAppend(a[1..], b, claims);
      assert all[0] == a[0] && all[1..] == a[1..] + b;
      Regroup(Expanded(a[0], claims), Substitute(a[1..], claims), Substitute(b, claims));
    }
  }

  /** Expansion replaces each reference in its place by the text of its claim and leaves the rest alone. */
  lemma ExpansionInPlace(a: seq<Token>, t: Token, b: seq<Token>, claims: Claims)
    requires t.Ref? ==> t.name in claims && claims[t.name].Text?
    ensures Substitute(a + [t] + b, claims)
         == Substitute(a, claims) + (if t.Ref? then claims[t.name].text else [t.c]) + Substitute(b, claims)
  {
    SubstituteAppend(a + [t], b, claims);
    SubstituteSnoc(a, t, claims);
  }

  /** A template without references expands to itself. */
  lemma {:induction false} NothingToExpand(ts: seq<Token>, claims: Claims)
    requires Refs(ts) == []
    ensures Substitute(ts, claims) == Print(ts)
  {
    if ts != [] {
      NothingToExpand(ts[1..], claims);
    }
  }

  /** An error names the first reference that cannot be used, and what is wrong with its claim. */
  lemma ErrorNamesFault(tmpl: string, claims: Claims)
    ensures KeyIdOf(tmpl, claims).Ok? ==>
              AllUsable(Refs(Scan(tmpl)), claims) && 1 <= |KeyIdOf(tmpl, claims).value| <= 256
    ensures KeyIdOf(tmpl, claims).Err? ==>
              var e := KeyIdOf(tmpl, claims).error;
              && (e.Missing? ==> FirstUnusable(tmpl, claims, e.name) && e.name !in claims)
              && (e.NotText? ==> FirstUnusable(tmpl, claims, e.name) && e.name in claims && !claims[e.name].Text?)
              && (e.BadValue? ==>
                    && FirstUnusable(tmpl, claims, e.name)
                    && e.name in claims && claims[e.name].Text? && !KeyIdValue(claims[e.name].text))
              && (e.TooLong? || e.BadResult? ==> AllUsable(Refs(Scan(tmpl)), claims))
              && (e.TooLong? ==> |Literals(Scan(tmpl))| + TotalLength(Refs(Scan(tmpl)), claims) > 256)
  {
    var names := Refs(Scan(tmpl));
    NoFault(names, claims);
    SubstituteLength(Scan(tmpl), claims);
    if FirstFault(names, claims).Some? {
      var i := FaultAt(names, claims);
    }
  }

  /** The template refers to the name, whose claim cannot be used, and all references before it can. */
  ghost predicate FirstUnusable(tmpl: string, claims: Claims, name: string) {
    exists i :: 0 <= i < |Refs(Scan(tmpl))| && Refs(Scan(tmpl))[i] == name && !Usable(name, claims)
      && AllUsable(Refs(Scan(tmpl))[..i], claims)
  }

  lemma {:induction false} FaultAt(names: seq<string>, claims: Claims) returns (i: nat)
    requires FirstFault(names, claims).Some?
    ensures i < |names| && !Usable(names[i], claims) && AllUsable(names[..i], claims)
    ensures FirstFault(names, claims) == Fault(names[i], claims)
  {
    if Fault(names[0], claims).Some? {
      i := 0;
    } else {
      var k := FaultAt(names[1..], claims);
      i := k + 1;
      UsableCons(names[0], names[1..][..k], claims);
      assert names[..i] == [names[0]] + names[1..][..k];
    }
  }

  // -------------------------------------------------------- reading claims off a key ID

  /** Every reference that another one follows is followed at once by the separator. */
  predicate Separated(ts: seq<Token>, sep: char)
    decreases |ts|
  {
    ts == [] ||
    (&& (ts[0].Ref? && Refs(ts[1..]) != [] ==> ts[1] == Ch(sep))
     && Separated(ts[1..], sep))
  }

  /** No referenced claim contains the separator. */
  predicate FreeOf(names: seq<string>, claims: Claims, sep: char) {
    forall i :: 0 <= i < |names| ==> sep !in ValueOf(names[i], claims)
  }

  /** Up to the first separator, two strings that start alike are alike. */
  lemma FirstFieldUnique(a: string, x: string, b: string, y: string, sep: char)
    requires sep !in a && sep !in b
    requires x != "" && x[0] == sep && y != "" && y[0] == sep
    requires a + x == b + y
    ensures a == b && x == y
  {
    var l, r := a + x, b + y;
    assert l[|a|] == sep && r[|b|] == sep;
    assert forall i :: 0 <= i < |a| ==> l[i] == a[i] != sep;
    assert forall i :: 0 <= i < |b| ==> r[i] == b[i] != sep;
    assert |a| == |b|;
    assert a == l[..|a|] && b == r[..|b|];
    assert x == l[|a|..] && y == r[|b|..];
  }

  lemma {:induction false} NoRefsLiteral(ts: seq<Token>, c1: Claims, c2: Claims)
    requires Refs(ts) == []
    ensures Substitute(ts, c1) == Substitute(ts, c2)
  {
    if ts != [] {
      NoRefsLiteral(ts[1..], c1, c2);
    }
  }

  /** Two token values that agree on every listed claim. */
  predicate Agree(names: seq<string>, c1: Claims, c2: Claims) {
    forall i :: 0 <= i < |names| ==> ValueOf(names[i], c1) == ValueOf(names[i], c2)
  }

  lemma AgreeCons(name: string, names: seq<string>, c1: Claims, c2: Claims)
    ensures Agree([name] + names, c1, c2) <==> ValueOf(name, c1) == ValueOf(name, c2) && Agree(names, c1, c2)
  {
    var all := [name] + names;
    assert all[0] == name && forall i :: 0 <= i < |names| ==> all[i + 1] == names[i];
  }

  lemma FreeOfCons(name: string, names: seq<string>, claims: Claims, sep: char)
    ensures FreeOf([name] + names, claims, sep) <==> sep !in ValueOf(name, claims) && FreeOf(names, claims, sep)
  {
    var all := [name] + names;
    assert all[0] == name && forall i :: 0 <= i < |names| ==> all[i + 1] == names[i];
  }

  lemma {:induction false} SubstituteInjective(ts: seq<Token>, c1: Claims, c2: Claims, sep: char)
    requires Separated(ts, sep) && FreeOf(Refs(ts), c1, sep) && FreeOf(Refs(ts), c2, sep)
    requires Substitute(ts, c1) == Substitute(ts, c2)
    ensures Agree(Refs(ts), c1, c2)
    decreases |ts|
  {
    if ts != [] {
      var rest := ts[1..];
      var s1, s2 := Substitute(rest, c1), Substitute(rest, c2);
      match ts[0]
      case Ch(c) =>
        assert Refs(ts) == Refs(rest);
        assert s1 == ([c] + s1)[1..] && s2 == ([c] + s2)[1..];
        SubstituteInjective(rest, c1, c2, sep);
      case Ref(name) =>
        var v1, v2 := ValueOf(name, c1), ValueOf(name, c2);
        FreeOfCons(name, Refs(rest), c1, sep);
        FreeOfCons(name, Refs(rest), c2, sep);
        AgreeCons(name, Refs(rest), c1, c2);
        if Refs(rest) == [] {
          NoRefsLiteral(rest, c1, c2);
          assert v1 == (v1 + s1)[..|v1|] && v2 == (v2 + s2)[..|v2|];
        } else {
          assert s1[0] == sep && s2[0] == sep;
          FirstFieldUnique(v1, s1, v2, s2, sep);
          SubstituteInjective(rest, c1, c2, sep);
        }
    }
  }

  /**
   An issued key ID determines every referenced claim when references are
   separated and the values are free of the separator: two tokens with the
   same key ID agree on all of them.
   */
  lemma KeyIdDeterminesClaims(tmpl: string, c1: Claims, c2: Claims, sep: char)
    requires AcceptedTemplate(tmpl) && Separated(Scan(tmpl), sep)
    requires FreeOf(Refs(Scan(tmpl)), c1, sep) && FreeOf(Refs(Scan(tmpl)), c2, sep)
    requires KeyIdOf(tmpl, c1).Ok? && KeyIdOf(tmpl, c1) == KeyIdOf(tmpl, c2)
    ensures forall i :: 0 <= i < |Refs(Scan(tmpl))| ==>
              var name := Refs(Scan(tmpl))[i];
              name in c1 && name in c2 && c1[name] == c2[name]
  {
    var names := Refs(Scan(tmpl));
    SubstituteInjective(Scan(tmpl), c1, c2, sep);
    NoFault(names, c1);
    NoFault(names, c2);
    forall i | 0 <= i < |names| ensures names[i] in c1 && names[i] in c2 && c1[names[i]] == c2[names[i]] {
      assert Usable(names[i], c1) && Usable(names[i], c2);
      assert ValueOf(names[i], c1) == ValueOf(names[i], c2);
    }
  }

  function TwoRefs(): seq<Token> {
    [Ref("a"), Ch(':'), Ref("b")]
  }

  /** Without the condition on values, a separated template ("${a}:${b}") does not determine its claims. */
  lemma SeparatorInValueIsAmbiguous() returns (tmpl: string, c1: Claims, c2: Claims)
    ensures AcceptedTemplate(tmpl) && Scan(tmpl) == TwoRefs() && Separated(Scan(tmpl), ':')
    ensures KeyIdOf(tmpl, c1).Ok? && KeyIdOf(tmpl, c1) == KeyIdOf(tmpl, c2)
    ensures "a" in c1 && "a" in c2 && c1["a"] != c2["a"]
  {
    tmpl := Print(TwoRefs());
    TwoRefTemplate(tmpl);
    var long1, short1, short2, long2 := AmbiguousValues();
    c1 := map["a" := Text(long1), "b" := Text(short1)];
    c2 := map["a" := Text(short2), "b" := Text(long2)];
    TwoRefKeyId(tmpl, c1, long1, short1);
    TwoRefKeyId(tmpl, c2, short2, long2);
  }

  /** "x:y" then "z", or "x" then "y:z". */
  lemma AmbiguousValues() returns (long1: string, short1: string, short2: string, long2: string)
    ensures KeyIdValue(long1) && KeyIdValue(short1) && KeyIdValue(short2) && KeyIdValue(long2)
    ensures |long1| + |short1| < MAX_KEY_ID_LENGTH && |short2| + |long2| < MAX_KEY_ID_LENGTH
    ensures long1 != short2 && long1 + ":" + short1 == short2 + ":" + long2
  {
    long1, short1, short2, long2 := "x:y", "z", "x", "y:z";
    assert long1 + ":" + short1 == "x:y:z" == short2 + ":" + long2;
  }

  lemma TwoRefTemplate(tmpl: string)
    requires tmpl == Print(TwoRefs())
    ensures Scan(tmpl) == TwoRefs() && AcceptedTemplate(tmpl)
    ensures Separated(TwoRefs(), ':') && Refs(TwoRefs()) == ["a", "b"]
  {
    var ts := TwoRefs();
    assert ts[1..] == [Ch(':'), Ref("b")] && ts[2..] == [Ref("b")];
    assert AcceptedTokens(ts);
    AcceptedIsNormal(ts);
    ScanPrint(ts);
    assert Refs(ts[2..]) == ["b"] && Refs(ts[1..]) == ["b"];
    assert Separated(ts[2..], ':') && Separated(ts[1..], ':');
  }

  lemma TwoRefSubstitute(c: Claims)
    ensures Substitute(TwoRefs(), c) == ValueOf("a", c) + ":" + ValueOf("b", c)
  {
    var ts := TwoRefs();
    assert ts[1..] == [Ch(':'), Ref("b")] && ts[2..] == [Ref("b")];
    assert Substitute(ts[2..], c) == ValueOf("b", c);
    assert Substitute(ts[1..], c) == ":" + ValueOf("b", c);
  }

  lemma JoinedText(a: string, b: string)
    requires KeyIdText(a) && KeyIdText(b)
    ensures KeyIdValue(a + ":" + b)
  {
    var out := a + ":" + b;
    assert forall i :: 0 <= i < |out| ==> out[i] == if i < |a| then a[i] else if i == |a| then ':' else b[i - |a| - 1];
  }

  lemma TwoRefKeyId(tmpl: string, c: Claims, a: string, b: string)
    requires tmpl == Print(TwoRefs())
    requires "a" in c && "b" in c && c["a"] == Text(a) && c["b"] == Text(b)
    requires KeyIdValue(a) && KeyIdValue(b) && |a| + |b| < MAX_KEY_ID_LENGTH
    ensures KeyIdOf(tmpl, c) == Ok(a + ":" + b)
  {
    TwoRefTemplate(tmpl);
    TwoRefSubstitute(c);
    NoFault(["a", "b"], c);
    JoinedText(a, b);
  }
}
