/**
  What the order of the class-name table implies: the table and the chain
  agree, the first rule that holds decides, and the precedence the order
  creates between amped-up, hosted, invalid and express classes.
 */
module ClassNameFacts {
  import opened Text
  import T = ClassTerms
  import opened ClassNames

  /** The lower-cased name contains the term. */
  predicate Has(name: string, t: T.Term)
  {
    Includes(Lower(name), T.TermText(t))
  }

  /** None of the terms the chain tests before any class format is present. */
  predicate NoLeadingTerm(p: T.Presence)
  {
    !p(T.Amped) && !p(T.Hosted) && !p(T.BridalShowerClass) && !p(T.SignUpLink) &&
    !p(T.Hc) && !p(T.PopUpAtKitabMahal) && !p(T.NotApplicable)
  }

  /** Rules placed after the first len rules start len places later. */
  lemma {:induction false} ClassifyFromShift(a: seq<Rule>, b: seq<Rule>, p: T.Presence, j: nat, otherwise: Category)
    requires j <= |b|
    ensures ClassifyFrom(a + b, p, |a| + j, otherwise) == ClassifyFrom(b, p, j, otherwise)
    decreases |b| - j
  {
    if j < |b| {
      assert (a + b)[|a| + j] == b[j];
      ClassifyFromShift(a, b, p, j + 1, otherwise);
    }
  }

  /** Matching a + b from index i is matching a, falling through to matching b. */
  lemma {:induction false} ClassifyFromAppend(a: seq<Rule>, b: seq<Rule>, p: T.Presence, i: nat, otherwise: Category)
    requires i <= |a|
    ensures ClassifyFrom(a + b, p, i, otherwise) == ClassifyFrom(a, p, i, ClassifyOr(b, p, otherwise))
    decreases |a| - i
  {
    if i == |a| {
      ClassifyFromShift(a, b, p, 0, otherwise);
    } else {
      assert (a + b)[i] == a[i];
      ClassifyFromAppend(a, b, p, i + 1, otherwise);
    }
  }

  lemma ClassifyOrAppend(a: seq<Rule>, b: seq<Rule>, p: T.Presence, otherwise: Category)
    ensures ClassifyOr(a + b, p, otherwise) == ClassifyOr(a, p, ClassifyOr(b, p, otherwise))
  {
    ClassifyFromAppend(a, b, p, 0, otherwise);
  }

  /** The table is its four groups, each falling through to the next. */
  lemma RulesByGroup(p: T.Presence)
    ensures Classify(Rules, p) ==
      ClassifyOr(Leading, p, ClassifyOr(Formats, p, ClassifyOr(Specials, p, ClassifyOr(Passes, p, Uncategorized))))
  {
    var u := Uncategorized;
    ClassifyOrAppend(Leading + Formats + Specials, Passes, p, u);
    ClassifyOrAppend(Leading + Formats, Specials, p, ClassifyOr(Passes, p, u));
    ClassifyOrAppend(Leading, Formats, p, ClassifyOr(Specials, p, ClassifyOr(Passes, p, u)));
  }

  /** The table gives what the if/else chain of the source gives, for every set of present terms. */
  lemma ChainAgrees(p: T.Presence)
    ensures Classify(Rules, p) == Chain(p)
  {
    var u := Uncategorized;
    RulesByGroup(p);
    PassesAgrees(p, u);
    var o3 := PassesChain(p, u);
    SpecialsAgrees(p, o3);
    var o2 := SpecialsChain(p, o3);
    FormatsAgrees(p, o2);
    LeadingAgrees(p, FormatsChain(p, o2));
  }

  /**
    First match wins: from index i on, either no rule holds and the result
    is otherwise, or the result is the category of the first rule that holds.
   */
  lemma {:induction false} ClassifyFromFirstMatch(rules: seq<Rule>, p: T.Presence, i: nat, otherwise: Category)
    requires i <= |rules|
    ensures var r := ClassifyFrom(rules, p, i, otherwise);
      (r == otherwise && forall j :: i <= j < |rules| ==> !Holds(rules[j].cond, p)) ||
      (exists k :: i <= k < |rules| && Holds(rules[k].cond, p) && r == rules[k].category &&
         forall j :: i <= j < k ==> !Holds(rules[j].cond, p))
    decreases |rules| - i
  {
    if i < |rules| && !Holds(rules[i].cond, p) {
      ClassifyFromFirstMatch(rules, p, i + 1, otherwise);
    }
  }

  /** Uncategorized comes out exactly when no rule holds. */
  lemma UncategorizedIff(rules: seq<Rule>, p: T.Presence)
    ensures Classify(rules, p) == Uncategorized <==> forall j :: 0 <= j < |rules| ==> !Holds(rules[j].cond, p)
  {
    ClassifyFromFirstMatch(rules, p, 0, Uncategorized);
  }

  /**
    The normaliser returns 'Uncategorized' exactly when no rule holds for
    the lower-cased name, and otherwise the label of the first rule that
    holds; the label is never empty.
   */
  lemma CleanedClassNameFirstMatch(name: string)
    ensures var p := T.PresenceIn(Lower(name));
      (CleanedClassName(name) == "Uncategorized" && forall j :: 0 <= j < |Rules| ==> !Holds(Rules[j].cond, p)) ||
      (exists k :: 0 <= k < |Rules| && Holds(Rules[k].cond, p) && CleanedClassName(name) == CategoryText(Rules[k].category) &&
         CleanedClassName(name) != "Uncategorized" &&
         forall j :: 0 <= j < k ==> !Holds(Rules[j].cond, p))
    ensures CleanedClassName(name) != ""
  {
    var p := T.PresenceIn(Lower(name));
    ClassifyFromFirstMatch(Rules, p, 0, Uncategorized);
  }

  /** Matching ignores case. */
  lemma CaseInsensitive(name: string)
    ensures CleanedClassName(Lower(name)) == CleanedClassName(name)
  {
    LowerIdempotent(name);
  }

  /** A name containing 'amped' is an amped-up class whatever else it contains. */
  lemma AmpedWins(name: string)
    requires Has(name, T.Amped)
    ensures CleanedClassName(name) == "Studio Amped Up!"
  {
    var p := T.PresenceIn(Lower(name));
    RulesByGroup(p);
    LeadingAgrees(p, ClassifyOr(Formats, p, ClassifyOr(Specials, p, ClassifyOr(Passes, p, Uncategorized))));
  }

  /** Hosted-class terms, 'hc' among them, beat every format, express or not. */
  lemma HostedBeforeFormats(name: string)
    requires !Has(name, T.Amped)
    requires Has(name, T.Hosted) || Has(name, T.BridalShowerClass) || Has(name, T.SignUpLink) || Has(name, T.Hc)
    ensures CleanedClassName(name) == "Studio Hosted Class"
  {
    var p := T.PresenceIn(Lower(name));
    RulesByGroup(p);
    LeadingAgrees(p, ClassifyOr(Formats, p, ClassifyOr(Specials, p, ClassifyOr(Passes, p, Uncategorized))));
  }

  /** 'n/a' makes a class invalid unless an earlier term is present, whatever format follows. */
  lemma InvalidWhenNotApplicable(p: T.Presence)
    requires !p(T.Amped) && !p(T.Hosted) && !p(T.BridalShowerClass)
    requires !p(T.SignUpLink) && !p(T.Hc) && !p(T.PopUpAtKitabMahal)
    requires p(T.NotApplicable)
    ensures Classify(Rules, p) == Invalid
  {
    RulesByGroup(p);
    LeadingAgrees(p, ClassifyOr(Formats, p, ClassifyOr(Specials, p, ClassifyOr(Passes, p, Uncategorized))));
  }

  /** With no leading term present, the formats group decides first. */
  lemma FormatsDecide(p: T.Presence)
    requires NoLeadingTerm(p)
    ensures Classify(Rules, p) == FormatsChain(p, ClassifyOr(Specials, p, ClassifyOr(Passes, p, Uncategorized)))
  {
    var rest := ClassifyOr(Specials, p, ClassifyOr(Passes, p, Uncategorized));
    RulesByGroup(p);
    LeadingAgrees(p, ClassifyOr(Formats, p, rest));
    FormatsAgrees(p, rest);
  }

  /**
    The express variants pair up: once no leading term and no earlier format
    is present, a format gives its express variant exactly when 'express' is
    present. One lemma per format, in chain order.
   */
  lemma BackExpressPair(p: T.Presence)
    requires NoLeadingTerm(p)
    requires p(T.Back)
    ensures Classify(Rules, p) == if p(T.Express) then StudioBackBodyBlazeExpress else StudioBackBodyBlaze
  {
    FormatsDecide(p);
  }

  lemma Barre57ExpressPair(p: T.Presence)
    requires NoLeadingTerm(p)
    requires !p(T.Back)
    requires p(T.Barre57)
    ensures Classify(Rules, p) == if p(T.Express) then StudioBarre57Express else StudioBarre57
  {
    FormatsDecide(p);
  }

  lemma CardioExpressPair(p: T.Presence)
    requires NoLeadingTerm(p)
    requires !p(T.Back) && !p(T.Barre57)
    requires p(T.Cardio)
    ensures Classify(Rules, p) == if p(T.Express) then StudioCardioBarreExpress else StudioCardioBarre
  {
    FormatsDecide(p);
  }

  lemma MatExpressPair(p: T.Presence)
    requires NoLeadingTerm(p)
    requires !p(T.Back) && !p(T.Barre57) && !p(T.Cardio)
    requires p(T.Mat)
    ensures Classify(Rules, p) == if p(T.Express) then StudioMat57Express else StudioMat57
  {
    FormatsDecide(p);
  }

  lemma HiitExpressPair(p: T.Presence)
    requires NoLeadingTerm(p)
    requires !p(T.Back) && !p(T.Barre57) && !p(T.Cardio) && !p(T.Mat)
    requires p(T.Hiit)
    ensures Classify(Rules, p) == if p(T.Express) then StudioHiitExpress else StudioHiit
  {
    FormatsDecide(p);
  }

  lemma FoundationExpressPair(p: T.Presence)
    requires NoLeadingTerm(p)
    requires !p(T.Back) && !p(T.Barre57) && !p(T.Cardio) && !p(T.Mat) && !p(T.Hiit)
    requires p(T.Foundation)
    ensures Classify(Rules, p) == if p(T.Express) then StudioFoundationsExpress else StudioFoundations
  {
    FormatsDecide(p);
  }

  lemma FitExpressPair(p: T.Presence)
    requires NoLeadingTerm(p)
    requires !p(T.Back) && !p(T.Barre57) && !p(T.Cardio) && !p(T.Mat) && !p(T.Hiit) && !p(T.Foundation)
    requires p(T.Fit)
    ensures Classify(Rules, p) == if p(T.Express) then StudioFitExpress else StudioFit
  {
    FormatsDecide(p);
  }

  lemma TrainerExpressPair(p: T.Presence)
    requires NoLeadingTerm(p)
    requires !p(T.Back) && !p(T.Barre57) && !p(T.Cardio) && !p(T.Mat) && !p(T.Hiit) && !p(T.Foundation) && !p(T.Fit)
    requires p(T.Trainer)
    ensures Classify(Rules, p) == if p(T.Express) then StudioTrainersChoiceExpress else StudioTrainersChoice
  {
    FormatsDecide(p);
  }

  /** 'Others' comes only from the group that holds the others rule. */
  lemma LeadingNotOthers(p: T.Presence, otherwise: Category)
    ensures LeadingChain(p, otherwise) == Others ==> otherwise == Others
  {
  }

  lemma FormatsNotOthers(p: T.Presence, otherwise: Category)
    ensures FormatsChain(p, otherwise) == Others ==> otherwise == Others
  {
  }

  lemma PassesNotOthers(p: T.Presence)
    ensures PassesChain(p, Uncategorized) != Others
  {
  }

  /** Within its group, 'Others' needs one of the four others terms and no 'x physique 57'. */
  lemma SpecialsOthers(p: T.Presence, otherwise: Category)
    requires otherwise != Others
    ensures SpecialsChain(p, otherwise) == Others ==>
      !p(T.XPhysique57) &&
      (p(T.StudioPrePostNatalClass) || p(T.OlympicsFinale) || p(T.PopUpClassAtRahejaVivarea) ||
       p(T.BangaloreRugbyClubXPhysique57))
  {
  }

  /** Whenever 'Others' comes out, 'x physique 57' is absent and one of the others terms is present. */
  lemma OthersTerms(p: T.Presence)
    ensures Classify(Rules, p) == Others ==>
      !p(T.XPhysique57) &&
      (p(T.StudioPrePostNatalClass) || p(T.OlympicsFinale) || p(T.PopUpClassAtRahejaVivarea) ||
       p(T.BangaloreRugbyClubXPhysique57))
  {
    var u := Uncategorized;
    ChainAgrees(p);
    var o3 := PassesChain(p, u);
    var o2 := SpecialsChain(p, o3);
    var o1 := FormatsChain(p, o2);
    PassesNotOthers(p);
    SpecialsOthers(p, o3);
    FormatsNotOthers(p, o2);
    LeadingNotOthers(p, o1);
  }

  /** Every name containing the rugby club term contains 'x physique 57'. */
  lemma RugbyTermIncludes(s: string)
    requires Includes(s, T.TermText(T.BangaloreRugbyClubXPhysique57))
    ensures Includes(s, T.TermText(T.XPhysique57))
  {
    var rugby := T.TermText(T.BangaloreRugbyClubXPhysique57);
    var x := T.TermText(T.XPhysique57);
    assert rugby == "bangalore rugby club " + x + "";
    IncludesInfix("bangalore rugby club ", x, "");
    IncludesTrans(s, rugby, x);
  }

  /**
    The rule for 'bangalore rugby club x physique 57' never decides: that
    name contains 'x physique 57', which an earlier rule maps to a hosted
    class, so 'Others' always comes from one of the other three terms.
   */
  lemma RugbyClubShadowed(name: string)
    ensures CleanedClassName(name) == "Others" ==>
      Has(name, T.StudioPrePostNatalClass) || Has(name, T.OlympicsFinale) || Has(name, T.PopUpClassAtRahejaVivarea)
  {
    var p := T.PresenceIn(Lower(name));
    OthersTerms(p);
    if Has(name, T.BangaloreRugbyClubXPhysique57) {
      RugbyTermIncludes(Lower(name));
    }
  }
}
