/** Which licences the SPDX policy prohibits, by their names (legal/license_policy.py). */
module SpdxVerdicts {
  import opened Options
  import opened SpdxPolicy

  // Names in any letter case

  predicate SameLetter(a: char, b: char) {
    a == b || ('a' <= a <= 'z' && a as int - 32 == b as int) || ('a' <= b <= 'z' && b as int - 32 == a as int)
  }

  /** Two spellings that differ at most in the case of ASCII letters. */
  predicate SameButCase(a: string, b: string) {
    |a| == |b| && forall i :: 0 <= i < |a| ==> SameLetter(a[i], b[i])
  }

  lemma {:induction false} UpperLetters(s: string)
    ensures |Upper(s)| == |s| && forall i :: 0 <= i < |s| ==> Upper(s)[i] == UpperChar(s[i])
  {
    if s != "" { UpperLetters(s[1..]); }
  }

  lemma UpperForgetsCase(a: string, b: string)
    ensures SameButCase(a, b) <==> Upper(a) == Upper(b)
  {
    UpperLetters(a);
    UpperLetters(b);
    assert forall i :: 0 <= i < |a| && i < |b| ==> (SameLetter(a[i], b[i]) <==> UpperChar(a[i]) == UpperChar(b[i]));
    assert |a| == |b| ==> (Upper(a) == Upper(b) <==> forall i :: 0 <= i < |a| ==> Upper(a)[i] == Upper(b)[i]);
  }

  lemma {:induction false} UpperConcat(a: string, b: string)
    ensures Upper(a + b) == Upper(a) + Upper(b)
  {
    UpperLetters(a);
    UpperLetters(b);
    UpperLetters(a + b);
  }

  // The prohibited names

  /** The licences of the GNU project that come in three forms. */
  const GNU: seq<string> := ["AGPL-3.0", "GPL-1.0", "GPL-2.0", "GPL-3.0", "LGPL-2.0", "LGPL-2.1", "LGPL-3.0"]

  const FORMS: seq<string> := ["", "-only", "-or-later"]

  const OTHERS: seq<string> := [
    "APSL-2.0", "BSD-2-Clause-Patent", "BSD-4-Clause", "BUSL-1.1", "CPOL-1.02", "JSON", "MS-LPL", "NPL-1.0", "NPL-1.1",
    "QPL-1.0", "Sleepycat", "SSPL-1.0"]

  predicate IsForm(id: string, i: nat, j: nat) { i < |GNU| && j < |FORMS| && SameButCase(id, GNU[i] + FORMS[j]) }

  /** One of the names, in any letter case. */
  ghost predicate Prohibited(id: string) {
    (exists i, j :: 0 <= i < |GNU| && 0 <= j < |FORMS| && IsForm(id, i, j)) || (exists k :: 0 <= k < |OTHERS| && SameButCase(id, OTHERS[k]))
  }

  lemma UpperIs(s: string, t: string)
    requires |s| == |t| && forall i :: 0 <= i < |s| ==> UpperChar(s[i]) == t[i]
    ensures Upper(s) == t
  {
    UpperLetters(s);
  }

  lemma FormsUpper()
    ensures Upper("") == "" && Upper("-only") == "-ONLY" && Upper("-or-later") == "-OR-LATER"
  {
    UpperIs("-only", "-ONLY");
    UpperIs("-or-later", "-OR-LATER");
  }

  lemma GnuUpper(i: nat)
    requires i < |GNU|
    ensures Upper(GNU[i]) == GNU[i]
  {
    UpperIs(GNU[i], GNU[i]);
  }

  const OTHERS_IN_CAPITALS: seq<string> := [
    "APSL-2.0", "BSD-2-CLAUSE-PATENT", "BSD-4-CLAUSE", "BUSL-1.1", "CPOL-1.02", "JSON", "MS-LPL", "NPL-1.0", "NPL-1.1",
    "QPL-1.0", "SLEEPYCAT", "SSPL-1.0"]

  lemma BsdPatent()
    ensures Upper("BSD-2-Clause-Patent") == "BSD-2-CLAUSE-PATENT"
  {
    UpperIs("BSD-2-Clause-Patent", "BSD-2-CLAUSE-PATENT");
  }

  lemma BsdFour()
    ensures Upper("BSD-4-Clause") == "BSD-4-CLAUSE"
  {
    UpperIs("BSD-4-Clause", "BSD-4-CLAUSE");
  }

  lemma Sleepycat()
    ensures Upper("Sleepycat") == "SLEEPYCAT"
  {
    UpperIs("Sleepycat", "SLEEPYCAT");
  }

  lemma MostUpper(k: nat)
    requires k < |OTHERS| && k != 1 && k != 2 && k != 10
    ensures Upper(OTHERS[k]) == OTHERS_IN_CAPITALS[k]
  {
    UpperIs(OTHERS[k], OTHERS_IN_CAPITALS[k]);
  }

  lemma OtherUpper(k: nat)
    requires k < |OTHERS|
    ensures Upper(OTHERS[k]) == OTHERS_IN_CAPITALS[k]
  {
    if k == 1 { BsdPatent(); } else if k == 2 { BsdFour(); } else if k == 10 { Sleepycat(); } else { MostUpper(k); }
  }

  const ONLY: seq<string> := ["AGPL-3.0-ONLY", "GPL-1.0-ONLY", "GPL-2.0-ONLY", "GPL-3.0-ONLY", "LGPL-2.0-ONLY", "LGPL-2.1-ONLY", "LGPL-3.0-ONLY"]

  const LATER: seq<string> := [
    "AGPL-3.0-OR-LATER", "GPL-1.0-OR-LATER", "GPL-2.0-OR-LATER", "GPL-3.0-OR-LATER", "LGPL-2.0-OR-LATER", "LGPL-2.1-OR-LATER", "LGPL-3.0-OR-LATER"]

  lemma OnlyForm(i: nat)
    requires i < |GNU|
    ensures GNU[i] + "-ONLY" == ONLY[i]
  {
  }

  lemma LaterForm(i: nat)
    requires i < |GNU|
    ensures GNU[i] + "-OR-LATER" == LATER[i]
  {
  }

  lemma AllIds(t: string)
    ensures t in CATEGORY_X_IDS <==> t in GNU || t in ONLY || t in LATER || t in OTHERS_IN_CAPITALS
  {
  }

  lemma FormUpper(i: nat, j: nat)
    requires i < |GNU| && j < |FORMS|
    ensures Upper(GNU[i] + FORMS[j]) == if j == 0 then GNU[i] else if j == 1 then ONLY[i] else LATER[i]
  {
    UpperConcat(GNU[i], FORMS[j]);
    GnuUpper(i);
    FormsUpper();
    if j == 0 {
      assert GNU[i] + "" == GNU[i];
    } else if j == 1 {
      OnlyForm(i);
    } else {
      LaterForm(i);
    }
  }

  lemma FormIsProhibited(id: string, i: nat, j: nat)
    requires IsForm(id, i, j)
    ensures Upper(id) in CATEGORY_X_IDS
  {
    UpperForgetsCase(id, GNU[i] + FORMS[j]);
    FormUpper(i, j);
    AllIds(Upper(id));
    assert GNU[i] in GNU && ONLY[i] in ONLY && LATER[i] in LATER;
  }

  lemma FormOf(id: string, i: nat, j: nat)
    requires i < |GNU| && j < |FORMS| && Upper(id) == if j == 0 then GNU[i] else if j == 1 then ONLY[i] else LATER[i]
    ensures Prohibited(id)
  {
    FormUpper(i, j);
    UpperForgetsCase(id, GNU[i] + FORMS[j]);
    assert IsForm(id, i, j);
  }

  lemma OtherOf(id: string, k: nat)
    requires k < |OTHERS|
    ensures Upper(id) == OTHERS_IN_CAPITALS[k] <==> SameButCase(id, OTHERS[k])
  {
    OtherUpper(k);
    UpperForgetsCase(id, OTHERS[k]);
  }

  /** The policy knows exactly these names, in any letter case. */
  lemma ProhibitedNames(id: string)
    ensures IdentifierIsCategoryX(id) <==> Prohibited(id)
  {
    var t := Upper(id);
    AllIds(t);
    if IdentifierIsCategoryX(id) {
      if i :| 0 <= i < |GNU| && GNU[i] == t {
        FormOf(id, i, 0);
      } else if i :| 0 <= i < |ONLY| && ONLY[i] == t {
        FormOf(id, i, 1);
      } else if i :| 0 <= i < |LATER| && LATER[i] == t {
        FormOf(id, i, 2);
      } else {
        var k :| 0 <= k < |OTHERS_IN_CAPITALS| && OTHERS_IN_CAPITALS[k] == t;
        OtherOf(id, k);
      }
    }
    if i, j :| 0 <= i < |GNU| && 0 <= j < |FORMS| && IsForm(id, i, j) { FormIsProhibited(id, i, j); }
    if k :| 0 <= k < |OTHERS| && SameButCase(id, OTHERS[k]) { OtherOf(id, k); }
  }

  // Verdicts

  predicate IsNameToken(token: string) { token != "(" && token != "AND" && token != "OR" && token != "WITH" && token != ")" }

  /** A single name is prohibited by the list alone. */
  lemma VerdictOfName(id: string)
    requires IsNameToken(id)
    ensures Verdict([id]) == Ok(IdentifierIsCategoryX(id))
    ensures Verdict([id]) == Ok(true) <==> Prohibited(id)
  {
    ProhibitedNames(id);
    assert WellSpelled(One(id)) && Print(One(id)) == [id];
    VerdictOfExpression(One(id));
  }

  /** Spellings of a name that differ only in case have the same verdict. */
  lemma CaseDoesNotMatter(id: string, other: string)
    requires IsNameToken(id) && IsNameToken(other) && SameButCase(id, other)
    ensures Verdict([id]) == Verdict([other])
  {
    UpperForgetsCase(id, other);
    VerdictOfName(id);
    VerdictOfName(other);
  }

  predicate IsGplTwoOnly(id: string) { SameButCase(id, "GPL-2.0") || SameButCase(id, "GPL-2.0-only") }

  predicate IsClasspathException(id: string) { SameButCase(id, "Classpath-exception-2.0") }

  lemma SameName(id: string, name: string, capitals: string)
    requires |name| == |capitals| && forall i :: 0 <= i < |name| ==> UpperChar(name[i]) == capitals[i]
    ensures Upper(id) == capitals <==> SameButCase(id, name)
  {
    UpperIs(name, capitals);
    UpperForgetsCase(id, name);
  }

  lemma GplTwo(id: string)
    ensures Upper(id) in GPL_2_ONLY_IDS <==> IsGplTwoOnly(id)
  {
    SameName(id, "GPL-2.0", "GPL-2.0");
    SameName(id, "GPL-2.0-only", "GPL-2.0-ONLY");
  }

  lemma Classpath(id: string)
    ensures Upper(id) == CLASSPATH_EXCEPTION <==> IsClasspathException(id)
  {
    SameName(id, "Classpath-exception-2.0", "CLASSPATH-EXCEPTION-2.0");
  }

  /** With an exception the verdict is that of the name, unless the name is GPL-2.0 or
      GPL-2.0-only and the exception the Classpath exception: that is allowed. */
  lemma VerdictOfException(id: string, op: string, exception: string)
    requires IsNameToken(id) && SameButCase(op, "WITH")
    ensures Verdict([id, op, exception])
      == if IsGplTwoOnly(id) && IsClasspathException(exception) then Ok(false) else Verdict([id])
  {
    var e := With(id, op, exception);
    UpperForgetsCase(op, "WITH");
    UpperIs("WITH", "WITH");
    GplTwo(id);
    Classpath(exception);
    VerdictOfName(id);
    VerdictOfExpression(e);
    AllTaintedOne([Licence(id, Some(exception))]);
    assert Print(e) == [id, op, exception];
  }

  /** A licence of an alternative is prohibited by its name, the Classpath exception aside. */
  lemma LicenceIsProhibited(l: Licence)
    ensures LicenceIsCategoryX(l) <==>
      Prohibited(l.id) && !(l.exception.Some? && IsGplTwoOnly(l.id) && IsClasspathException(l.exception.value))
  {
    ProhibitedNames(l.id);
    GplTwo(l.id);
    if l.exception.Some? { Classpath(l.exception.value); }
  }

  lemma OperatorsAreAllowed(token: string)
    requires Upper(token) in {"AND", "OR", "WITH"} || token == "(" || token == ")"
    ensures !IdentifierIsCategoryX(token)
  {
    UpperLetters(token);
    AllIds(Upper(token));
    assert forall i :: 0 <= i < |GNU| ==> |GNU[i]| > 4 && |ONLY[i]| > 4 && |LATER[i]| > 4;
    assert forall k :: 0 <= k < |OTHERS_IN_CAPITALS| ==> |OTHERS_IN_CAPITALS[k]| > 4 || OTHERS_IN_CAPITALS[k] == "JSON";
    assert "WITH"[0] == 'W' && "JSON"[0] == 'J';
  }

  /** A token list that is read but not as an expression is prohibited when it has any
      prohibited name. */
  lemma VerdictOfLeftovers(tokens: seq<string>)
    requires tokens != [] && !IsExpression(tokens) && Verdict(tokens).Ok?
    ensures Verdict(tokens).value <==> exists i :: 0 <= i < |tokens| && Prohibited(tokens[i])
  {
    ParserAcceptsExpressions(tokens);
    forall i | 0 <= i < |tokens| ensures IdentifierIsCategoryX(tokens[i]) <==> Prohibited(tokens[i]) { ProhibitedNames(tokens[i]); }
    if i :| 0 <= i < |tokens| && IdentifierIsCategoryX(tokens[i]) {
      if Upper(tokens[i]) in {"AND", "OR", "WITH"} || tokens[i] == "(" || tokens[i] == ")" { OperatorsAreAllowed(tokens[i]); }
    }
  }

  // Examples

  lemma GplThreeOnly()
    ensures IsForm("GPL-3.0-only", 3, 1)
  {
    assert GNU[3] + FORMS[1] == "GPL-3.0-only";
  }

  /** One of the names is prohibited however it is spelled. */
  lemma GplThreeOnlyIsProhibited(id: string)
    requires IsNameToken(id) && SameButCase(id, "GPL-3.0-only")
    ensures Verdict([id]) == Ok(true)
  {
    GplThreeOnly();
    VerdictOfName("GPL-3.0-only");
    CaseDoesNotMatter(id, "GPL-3.0-only");
  }

  lemma MitIsAllowed()
    ensures Verdict(["MIT"]) == Ok(false)
  {
    assert forall i :: 0 <= i < |GNU| ==> |GNU[i]| > 3;
    assert forall k :: 0 <= k < |OTHERS| ==> |OTHERS[k]| > 3;
    VerdictOfName("MIT");
  }
}
