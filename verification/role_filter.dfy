/** RoleFilter: which retrieved chunks a role may see, and the redaction of
    sensitive keywords from an answer for roles without access to sensitive
    information. */
module RoleFilter {
  import opened Seqs
  import opened Strings

  datatype Role = Admin | Manager | Employee | Public

  /** The roles of the permission table; any other name is treated as `public`. */
  function ParseRole(name: string): (r: Role)
    ensures r == Admin <==> name == "admin"
    ensures r == Manager <==> name == "manager"
    ensures r == Employee <==> name == "employee"
    ensures r == Public <==> name !in ["admin", "manager", "employee"]
  {
    if name == "admin" then Admin
    else if name == "manager" then Manager
    else if name == "employee" then Employee
    else Public
  }

  /** The `all_documents` permission. */
  predicate SeesAllDocuments(r: Role) {
    r == Admin || r == Manager
  }

  /** The `sensitive_info` permission. */
  predicate SeesSensitiveInfo(r: Role) {
    r == Admin
  }

  /** `document_restrictions.get(source, all four roles)`. */
  function AllowedRoles(source: string): seq<Role> {
    if source == "cybersecurity.txt" then [Admin, Manager]
    else if source == "cloud_devops.txt" then [Admin, Manager, Employee]
    else [Admin, Manager, Employee, Public]
  }

  /** A role may see a chunk of `source`: cybersecurity.txt only for admin and
      manager, cloud_devops.txt for everyone but public, every other file for
      all roles. */
  lemma VisibilityTable(r: Role, source: string)
    ensures r in AllowedRoles(source) <==>
              && (source == "cybersecurity.txt" ==> r == Admin || r == Manager)
              && (source == "cloud_devops.txt" ==> r != Public)
  {
  }

  /** `filter_documents`: admin and manager get the list unchanged; other roles get
      the documents whose source allows them, in their original order. Either way a
      document is kept exactly when the role may see its source, with every copy of
      it. */
  function FilterDocuments<T(==,!new)>(docs: seq<T>, source: T -> string, userRole: string): (r: seq<T>)
    ensures SeesAllDocuments(ParseRole(userRole)) ==> r == docs
    ensures IsSubsequence(r, docs)
    ensures forall i :: 0 <= i < |r| ==> ParseRole(userRole) in AllowedRoles(source(r[i]))
    ensures forall i :: 0 <= i < |docs| && ParseRole(userRole) in AllowedRoles(source(docs[i])) ==> docs[i] in r
    ensures forall x :: multiset(r)[x] == if ParseRole(userRole) in AllowedRoles(source(x)) then multiset(docs)[x] else 0
  {
    var role := ParseRole(userRole);
    if SeesAllDocuments(role) then
      SubsequenceOfItself(docs);
      docs
    else
      var keep := d => role in AllowedRoles(source(d));
      FilterIsSubsequence(docs, keep);
      FilterMembers(docs, keep);
      FilterMultiset(docs, keep);
      Filter(docs, keep)
  }

  // ---------------------------------------------------------------------------
  // filter_response

  const SensitiveKeywords: seq<string> :=
    ["security", "password", "encryption", "vulnerability",
     "attack", "penetration", "firewall", "intrusion"]

  /** `[KEYWORD_INFO_RESTRICTED]`: strictly longer than the keyword it replaces. */
  function Marker(kw: string): (m: string)
    ensures |m| > |kw|
  {
    "[" + Upper(kw) + "_INFO_RESTRICTED]"
  }

  const Disclaimer: string :=
    "\n\n[Note: Some sensitive information has been filtered based on your access level.]"

  ghost predicate NonEmptyWords(kws: seq<string>) {
    forall k :: 0 <= k < |kws| ==> |kws[k]| > 0
  }

  /** One iteration of the keyword loop: the gate compares lower-cased text, the
      replacement itself is case-sensitive. */
  function RedactStep(t: string, kw: string): string
    requires |kw| > 0
  {
    if Contains(Lower(t), Lower(kw)) then Replace(t, kw, Marker(kw)) else t
  }

  /** The case-insensitive gate never matters: a step replaces exactly the
      case-sensitive occurrences of the keyword. */
  lemma RedactStepIsReplace(t: string, kw: string)
    requires |kw| > 0
    ensures RedactStep(t, kw) == Replace(t, kw, Marker(kw))
  {
    if Contains(t, kw) {
      LowerKeepsContains(t, kw);
    }
  }

  /** The keyword loop of `filter_response`. */
  function Redact(t: string, kws: seq<string>): string
    requires NonEmptyWords(kws)
    decreases |kws|
  {
    if kws == [] then t else Redact(RedactStep(t, kws[0]), kws[1..])
  }

  /** Some keyword occurs in `t`, with its case as written. */
  ghost predicate Mentions(t: string, kws: seq<string>) {
    exists k :: 0 <= k < |kws| && Contains(t, kws[k])
  }

  /** A text that mentions no keyword comes out of the loop unchanged. */
  lemma {:induction false} RedactUnchanged(t: string, kws: seq<string>)
    requires NonEmptyWords(kws)
    requires !Mentions(t, kws)
    ensures Redact(t, kws) == t
    decreases |kws|
  {
    if kws != [] {
      RedactStepIsReplace(t, kws[0]);
      assert !Mentions(t, kws[1..]) by {
        assert forall k :: 0 <= k < |kws[1..]| ==> kws[1..][k] == kws[k + 1];
      }
      RedactUnchanged(t, kws[1..]);
    }
  }

  /** The loop never shortens the text, and lengthens it when some keyword
      occurs. */
  lemma {:induction false} RedactGrows(t: string, kws: seq<string>)
    requires NonEmptyWords(kws)
    ensures |Redact(t, kws)| >= |t|
    ensures Mentions(t, kws) ==> |Redact(t, kws)| > |t|
    decreases |kws|
  {
    if kws != [] {
      var kw := kws[0];
      var t' := RedactStep(t, kw);
      RedactStepIsReplace(t, kw);
      assert NonEmptyWords(kws[1..]);
      RedactGrows(t', kws[1..]);
      if Mentions(t, kws) && !Contains(t, kw) {
        assert t' == t;
        var k :| 0 <= k < |kws| && Contains(t, kws[k]);
        assert kws[k] == kws[1..][k - 1];
        assert Mentions(t, kws[1..]);
      }
    }
  }

  /** The loop changes the text exactly when some keyword occurs, and then makes
      it longer. */
  lemma RedactOutcome(t: string, kws: seq<string>)
    requires NonEmptyWords(kws)
    ensures !Mentions(t, kws) ==> Redact(t, kws) == t
    ensures Mentions(t, kws) ==> |Redact(t, kws)| > |t|
  {
    RedactGrows(t, kws);
    if !Mentions(t, kws) {
      RedactUnchanged(t, kws);
    }
  }

  /** `filter_response`: an admin gets the response as it is. For every other
      role the response changes exactly when it mentions a keyword with the case
      as written; the changed response is the redacted text, longer than the
      original, followed by the disclaimer. */
  function FilterResponse(response: string, userRole: string): (r: string)
    ensures SeesSensitiveInfo(ParseRole(userRole)) ==> r == response
    ensures !SeesSensitiveInfo(ParseRole(userRole)) && !Mentions(response, SensitiveKeywords)
            ==> r == response
    ensures !SeesSensitiveInfo(ParseRole(userRole)) && Mentions(response, SensitiveKeywords)
            ==> && r == Redact(response, SensitiveKeywords) + Disclaimer
                && |Redact(response, SensitiveKeywords)| > |response|
  {
    if SeesSensitiveInfo(ParseRole(userRole)) then response
    else
      var filtered := Redact(response, SensitiveKeywords);
      RedactOutcome(response, SensitiveKeywords);
      if filtered != response then filtered + Disclaimer else filtered
  }

  /** Whether `filter_response` changed the response: for roles other than admin,
      exactly when a keyword occurs with the case as written. */
  lemma FilterResponseChanges(response: string, userRole: string)
    ensures FilterResponse(response, userRole) != response
            <==> !SeesSensitiveInfo(ParseRole(userRole)) && Mentions(response, SensitiveKeywords)
  {
  }

  /** A text without the letters i, v, k and f, and with no lower-case p that
      could start "password", mentions no keyword. */
  lemma NoKeywordWithout(t: string)
    requires 'i' !in t && 'v' !in t && 'k' !in t && 'f' !in t
    requires forall i :: 0 <= i <= |t| - 8 ==> t[i] != 'p'
    ensures !Mentions(t, SensitiveKeywords)
  {
    NotContainsByChar(t, SensitiveKeywords[0], 5);
    NotContainsByChar(t, SensitiveKeywords[1], 0);
    NotContainsByChar(t, SensitiveKeywords[2], 7);
    NotContainsByChar(t, SensitiveKeywords[3], 0);
    NotContainsByChar(t, SensitiveKeywords[4], 5);
    NotContainsByChar(t, SensitiveKeywords[5], 8);
    NotContainsByChar(t, SensitiveKeywords[6], 0);
    NotContainsByChar(t, SensitiveKeywords[7], 0);
  }

  /** A capitalised keyword passes the lower-cased gate but is not replaced, and a
      word that merely shares a stem with a keyword is not one: this response
      reaches a public user unchanged and without the disclaimer. */
  lemma CapitalisedKeywordNotRedacted()
    ensures FilterResponse("Passwords must be encrypted.", "public") == "Passwords must be encrypted."
  {
    SentenceMentionsNoKeyword();
  }

  lemma SentenceMentionsNoKeyword()
    ensures !Mentions("Passwords must be encrypted.", SensitiveKeywords)
  {
    var t := "Passwords must be encrypted.";
    SentenceLetters();
    NoKeywordWithout(t);
  }

  lemma SentenceLetters()
    ensures var t := "Passwords must be encrypted.";
            && 'i' !in t && 'v' !in t && 'k' !in t && 'f' !in t
            && forall i :: 0 <= i <= |t| - 8 ==> t[i] != 'p'
  {
    var t := "Passwords must be encrypted.";
    assert 'i' !in t && 'v' !in t;
    assert 'k' !in t && 'f' !in t;
  }
}
