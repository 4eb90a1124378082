/**
  `getCleanedClassName`: a class name is lower-cased and matched against an
  ordered table of substring tests; it takes the category of the first test
  that holds, or Uncategorized when none does. The table is checked against
  the same tests written as the if/else chain of the source.
 */
module ClassNames {
  import opened Wrappers
  import opened Text
  import T = ClassTerms

  /** The categories, in the order the chain first gives them. */
  datatype Category =
    | StudioAmpedUp | StudioHostedClass | OutdoorClass | Invalid | StudioBackBodyBlazeExpress
    | StudioBackBodyBlaze | StudioBarre57 | StudioBarre57Express | StudioCardioBarre
    | StudioCardioBarreExpress | StudioMat57 | StudioMat57Express | StudioHiit
    | StudioHiitExpress | StudioFoundations | StudioFoundationsExpress | StudioFit
    | StudioFitExpress | StudioTrainersChoice | StudioTrainersChoiceExpress | StudioSweatIn30
    | StudioRecovery | StudioPowerCycleExpress | StudioPowerCycle | Others | Flex30SingleClass
    | Studio1MonthUnlimited | Studio8ClassPackage | StudioSingleClass | Studio12ClassPackage
    | Studio4ClassPackage | StudioOpenBarreClass | Studio2WeekUnlimited
    | StudioComplimentaryClass | StudioFreeInfluencerClass | StudioNewcomers2WeekUnlimited
    | StudioAnnualUnlimited | OutdoorComplimentaryClass | StudioCommunityBarre | SunriseClass
    | VirtualPrivateApt | StudioPrivateApt | OpenBarreClass | FfClassTest | Uncategorized

  function CategoryText(c: Category): (text: string)
    ensures text != ""
    ensures text == "Uncategorized" <==> c == Uncategorized
    ensures text == "Others" <==> c == Others
  {
    match c
    case StudioAmpedUp => "Studio Amped Up!"
    case StudioHostedClass => "Studio Hosted Class"
    case OutdoorClass => "Outdoor Class"
    case Invalid => "Invalid"
    case StudioBackBodyBlazeExpress => "Studio Back Body Blaze Express"
    case StudioBackBodyBlaze => "Studio Back Body Blaze"
    case StudioBarre57 => "Studio Barre 57"
    case StudioBarre57Express => "Studio Barre 57 Express"
    case StudioCardioBarre => "Studio Cardio Barre"
    case StudioCardioBarreExpress => "Studio Cardio Barre Express"
    case StudioMat57 => "Studio Mat 57"
    case StudioMat57Express => "Studio Mat 57 Express"
    case StudioHiit => "Studio HIIT"
    case StudioHiitExpress => "Studio HIIT Express"
    case StudioFoundations => "Studio Foundations"
    case StudioFoundationsExpress => "Studio Foundations Express"
    case StudioFit => "Studio FIT"
    case StudioFitExpress => "Studio FIT Express"
    case StudioTrainersChoice => "Studio Trainers Choice"
    case StudioTrainersChoiceExpress => "Studio Trainers Choice Express"
    case StudioSweatIn30 => "Studio Sweat in 30"
    case StudioRecovery => "Studio Recovery"
    case StudioPowerCycleExpress => "Studio powerCycle Express"
    case StudioPowerCycle => "Studio powerCycle"
    case Others => "Others"
    case Flex30SingleClass => "Flex 30 Single Class"
    case Studio1MonthUnlimited => "Studio 1 Month Unlimited"
    case Studio8ClassPackage => "Studio 8 Class Package"
    case StudioSingleClass => "Studio Single Class"
    case Studio12ClassPackage => "Studio 12 Class Package"
    case Studio4ClassPackage => "Studio 4 Class Package"
    case StudioOpenBarreClass => "Studio Open Barre Class"
    case Studio2WeekUnlimited => "Studio 2 Week Unlimited"
    case StudioComplimentaryClass => "Studio Complimentary Class"
    case StudioFreeInfluencerClass => "Studio Free Influencer Class"
    case StudioNewcomers2WeekUnlimited => "Studio Newcomers 2 Week Unlimited"
    case StudioAnnualUnlimited => "Studio Annual Unlimited"
    case OutdoorComplimentaryClass => "Outdoor Complimentary Class"
    case StudioCommunityBarre => "Studio Community Barre"
    case SunriseClass => "SUNRISE CLASS"
    case VirtualPrivateApt => "Virtual Private Apt"
    case StudioPrivateApt => "Studio Private Apt"
    case OpenBarreClass => "OPEN BARRE CLASS"
    case FfClassTest => "FF CLASS TEST"
    case Uncategorized => "Uncategorized"
  }

  /** A category a rule can give: anything but Uncategorized. */
  type Label = c: Category | c != Uncategorized witness StudioAmpedUp

  /** A test on the terms a name contains. */
  datatype Cond =
    | AnyOf(terms: seq<T.Term>)              // one of the terms
    | Both(first: T.Term, second: T.Term)    // both terms
    | ButNot(term: T.Term, excluded: T.Term) // the term but not the excluded one

  datatype Rule = Rule(cond: Cond, category: Label)

  predicate Holds(c: Cond, p: T.Presence)
  {
    match c
    case AnyOf(terms) => exists t :: t in terms && p(t)
    case Both(a, b) => p(a) && p(b)
    case ButNot(t, x) => p(t) && !p(x)
  }

  /** The tests of the chain, in the order it makes them. */
  const Rules: seq<Rule> :=
    Leading + Formats + Specials + Passes

  /** Amped-up, hosted, outdoor and invalid classes come before everything else. */
  const Leading: seq<Rule> := [
    Rule(AnyOf([T.Amped]), StudioAmpedUp),
    Rule(AnyOf([T.Hosted, T.BridalShowerClass, T.SignUpLink, T.Hc]), StudioHostedClass),
    Rule(AnyOf([T.PopUpAtKitabMahal]), OutdoorClass),
    Rule(AnyOf([T.NotApplicable]), Invalid)
  ]

  /** The class formats, each in a plain and an express variant. */
  const Formats: seq<Rule> := [
    Rule(Both(T.Express, T.Back), StudioBackBodyBlazeExpress),
    Rule(ButNot(T.Back, T.Express), StudioBackBodyBlaze),
    Rule(ButNot(T.Barre57, T.Express), StudioBarre57),
    Rule(Both(T.Express, T.Barre57), StudioBarre57Express),
    Rule(ButNot(T.Cardio, T.Express), StudioCardioBarre),
    Rule(Both(T.Express, T.Cardio), StudioCardioBarreExpress),
    Rule(ButNot(T.Mat, T.Express), StudioMat57),
    Rule(Both(T.Express, T.Mat), StudioMat57Express),
    Rule(ButNot(T.Hiit, T.Express), StudioHiit),
    Rule(Both(T.Express, T.Hiit), StudioHiitExpress),
    Rule(ButNot(T.Foundation, T.Express), StudioFoundations),
    Rule(Both(T.Express, T.Foundation), StudioFoundationsExpress),
    Rule(ButNot(T.Fit, T.Express), StudioFit),
    Rule(Both(T.Express, T.Fit), StudioFitExpress),
    Rule(ButNot(T.Trainer, T.Express), StudioTrainersChoice),
    Rule(Both(T.Express, T.Trainer), StudioTrainersChoiceExpress)
  ]

  /** Sweat, recovery, more hosted classes, powerCycle and the others. */
  const Specials: seq<Rule> := [
    Rule(AnyOf([T.Sweat]), StudioSweatIn30),
    Rule(AnyOf([T.Recovery]), StudioRecovery),
    Rule(AnyOf([T.P57X, T.Physique57X, T.XPhysique57, T.Birthday, T.Sundowner, T.Bridal]), StudioHostedClass),
    Rule(Both(T.Powercycle, T.Express), StudioPowerCycleExpress),
    Rule(AnyOf([T.Powercycle]), StudioPowerCycle),
    Rule(AnyOf([T.StudioPrePostNatalClass, T.OlympicsFinale, T.PopUpClassAtRahejaVivarea, T.BangaloreRugbyClubXPhysique57]), Others)
  ]

  /** Packages, passes and one-off names, matched by their full wording. */
  const Passes: seq<Rule> := [
    Rule(AnyOf([T.Flex30SingleClass]), Flex30SingleClass),
    Rule(AnyOf([T.Studio1MonthUnlimited]), Studio1MonthUnlimited),
    Rule(AnyOf([T.Studio8ClassPackage]), Studio8ClassPackage),
    Rule(AnyOf([T.StudioSingleClass]), StudioSingleClass),
    Rule(AnyOf([T.Studio12ClassPackage]), Studio12ClassPackage),
    Rule(AnyOf([T.Studio4ClassPackage]), Studio4ClassPackage),
    Rule(AnyOf([T.StudioOpenBarreClass]), StudioOpenBarreClass),
    Rule(AnyOf([T.Studio2WeekUnlimited]), Studio2WeekUnlimited),
    Rule(AnyOf([T.StudioComplimentaryClass]), StudioComplimentaryClass),
    Rule(AnyOf([T.StudioFreeInfluencerClass]), StudioFreeInfluencerClass),
    Rule(AnyOf([T.StudioNewcomers2WeekUnlimited]), StudioNewcomers2WeekUnlimited),
    Rule(AnyOf([T.StudioAnnualUnlimited]), StudioAnnualUnlimited),
    Rule(AnyOf([T.OutdoorComplimentaryClass]), OutdoorComplimentaryClass),
    Rule(AnyOf([T.StudioCommunityBarre]), StudioCommunityBarre),
    Rule(AnyOf([T.SunriseClass]), SunriseClass),
    Rule(AnyOf([T.VirtualPrivateApt]), VirtualPrivateApt),
    Rule(AnyOf([T.StudioPrivateApt]), StudioPrivateApt),
    Rule(AnyOf([T.OpenBarreComplimentaryClass]), OpenBarreClass),
    Rule(AnyOf([T.FfClassTest]), FfClassTest),
    Rule(AnyOf([T.OpenBarreClass]), OpenBarreClass)
  ]

  /**
    The category of the first rule at or after index i that holds, or
    otherwise when none of them does.
   */
  function ClassifyFrom(rules: seq<Rule>, p: T.Presence, i: nat, otherwise: Category): Category
    requires i <= |rules|
    decreases |rules| - i
  {
    if i == |rules| then otherwise
    else if Holds(rules[i].cond, p) then rules[i].category
    else ClassifyFrom(rules, p, i + 1, otherwise)
  }

  function ClassifyOr(rules: seq<Rule>, p: T.Presence, otherwise: Category): Category
  {
    ClassifyFrom(rules, p, 0, otherwise)
  }

  /** The category of the first rule that holds, or Uncategorized. */
  function Classify(rules: seq<Rule>, p: T.Presence): Category
  {
    ClassifyOr(rules, p, Uncategorized)
  }

  /** `getCleanedClassName` */
  function CleanedClassName(className: string): (cleaned: string)
    ensures cleaned != ""
  {
    CategoryText(Classify(Rules, T.PresenceIn(Lower(className))))
  }

  /**
    The chain of `getCleanedClassName` as written, test by test, each
    `includes` test read from the terms present. It is cut into four pieces
    at the group boundaries, each piece falling through to the next.
   */
  function Chain(p: T.Presence): Category
  {
    LeadingChain(p, FormatsChain(p, SpecialsChain(p, PassesChain(p, Uncategorized))))
  }

  /** The tests for amped-up, hosted, outdoor and invalid classes, falling through to otherwise. */
  function LeadingChain(p: T.Presence, otherwise: Category): Category
  {
    if p(T.Amped) then StudioAmpedUp
    else if p(T.Hosted) || p(T.BridalShowerClass) || p(T.SignUpLink) || p(T.Hc) then StudioHostedClass
    else if p(T.PopUpAtKitabMahal) then OutdoorClass
    else if p(T.NotApplicable) then Invalid
    else otherwise
  }

  /** The tests for the class formats, falling through to otherwise. */
  function FormatsChain(p: T.Presence, otherwise: Category): Category
  {
    if p(T.Express) && p(T.Back) then StudioBackBodyBlazeExpress
    else if !p(T.Express) && p(T.Back) then StudioBackBodyBlaze
    else if !p(T.Express) && p(T.Barre57) then StudioBarre57
    else if p(T.Express) && p(T.Barre57) then StudioBarre57Express
    else if !p(T.Express) && p(T.Cardio) then StudioCardioBarre
    else if p(T.Express) && p(T.Cardio) then StudioCardioBarreExpress
    else if !p(T.Express) && p(T.Mat) then StudioMat57
    else if p(T.Express) && p(T.Mat) then StudioMat57Express
    else if !p(T.Express) && p(T.Hiit) then StudioHiit
    else if p(T.Express) && p(T.Hiit) then StudioHiitExpress
    else if !p(T.Express) && p(T.Foundation) then StudioFoundations
    else if p(T.Express) && p(T.Foundation) then StudioFoundationsExpress
    else if !p(T.Express) && p(T.Fit) then StudioFit
    else if p(T.Express) && p(T.Fit) then StudioFitExpress
    else if !p(T.Express) && p(T.Trainer) then StudioTrainersChoice
    else if p(T.Express) && p(T.Trainer) then StudioTrainersChoiceExpress
    else otherwise
  }

  /** The tests for sweat, recovery, more hosted classes, powerCycle and the others, falling through to otherwise. */
  function SpecialsChain(p: T.Presence, otherwise: Category): Category
  {
    if p(T.Sweat) then StudioSweatIn30
    else if p(T.Recovery) then StudioRecovery
    else if p(T.P57X) || p(T.Physique57X) || p(T.XPhysique57) || p(T.Birthday) || p(T.Sundowner) || p(T.Bridal) then StudioHostedClass
    else if p(T.Powercycle) && p(T.Express) then StudioPowerCycleExpress
    else if p(T.Powercycle) then StudioPowerCycle
    else if p(T.StudioPrePostNatalClass) || p(T.OlympicsFinale) || p(T.PopUpClassAtRahejaVivarea) || p(T.BangaloreRugbyClubXPhysique57) then Others
    else otherwise
  }

  /** The tests for packages, passes and one-off names, falling through to otherwise. */
  function PassesChain(p: T.Presence, otherwise: Category): Category
  {
    if p(T.Flex30SingleClass) then Flex30SingleClass
    else if p(T.Studio1MonthUnlimited) then Studio1MonthUnlimited
    else if p(T.Studio8ClassPackage) then Studio8ClassPackage
    else if p(T.StudioSingleClass) then StudioSingleClass
    else if p(T.Studio12ClassPackage) then Studio12ClassPackage
    else if p(T.Studio4ClassPackage) then Studio4ClassPackage
    else if p(T.StudioOpenBarreClass) then StudioOpenBarreClass
    else if p(T.Studio2WeekUnlimited) then Studio2WeekUnlimited
    else if p(T.StudioComplimentaryClass) then StudioComplimentaryClass
    else if p(T.StudioFreeInfluencerClass) then StudioFreeInfluencerClass
    else if p(T.StudioNewcomers2WeekUnlimited) then StudioNewcomers2WeekUnlimited
    else if p(T.StudioAnnualUnlimited) then StudioAnnualUnlimited
    else if p(T.OutdoorComplimentaryClass) then OutdoorComplimentaryClass
    else if p(T.StudioCommunityBarre) then StudioCommunityBarre
    else if p(T.SunriseClass) then SunriseClass
    else if p(T.VirtualPrivateApt) then VirtualPrivateApt
    else if p(T.StudioPrivateApt) then StudioPrivateApt
    else if p(T.OpenBarreComplimentaryClass) then OpenBarreClass
    else if p(T.FfClassTest) then FfClassTest
    else if p(T.OpenBarreClass) then OpenBarreClass
    else otherwise
  }

  lemma LeadingStep0(p: T.Presence, otherwise: Category)
    ensures ClassifyFrom(Leading, p, 0, otherwise) ==
      if p(T.Amped) then StudioAmpedUp else ClassifyFrom(Leading, p, 1, otherwise)
  {
  }

  lemma LeadingStep1(p: T.Presence, otherwise: Category)
    ensures ClassifyFrom(Leading, p, 1, otherwise) ==
      if p(T.Hosted) || p(T.BridalShowerClass) || p(T.SignUpLink) || p(T.Hc) then StudioHostedClass else ClassifyFrom(Leading, p, 2, otherwise)
  {
  }

  lemma LeadingStep2(p: T.Presence, otherwise: Category)
    ensures ClassifyFrom(Leading, p, 2, otherwise) ==
      if p(T.PopUpAtKitabMahal) then OutdoorClass else ClassifyFrom(Leading, p, 3, otherwise)
  {
  }

  lemma LeadingStep3(p: T.Presence, otherwise: Category)
    ensures ClassifyFrom(Leading, p, 3, otherwise) ==
      if p(T.NotApplicable) then Invalid else ClassifyFrom(Leading, p, 4, otherwise)
  {
  }

  /** The Leading rules and their piece of the chain agree. */
  lemma LeadingAgrees(p: T.Presence, otherwise: Category)
    ensures ClassifyOr(Leading, p, otherwise) == LeadingChain(p, otherwise)
  {
    LeadingStep0(p, otherwise);
    LeadingStep1(p, otherwise);
    LeadingStep2(p, otherwise);
    LeadingStep3(p, otherwise);
  }

  lemma FormatsStep0(p: T.Presence, otherwise: Category)
    ensures ClassifyFrom(Formats, p, 0, otherwise) ==
      if p(T.Express) && p(T.Back) then StudioBackBodyBlazeExpress else ClassifyFrom(Formats, p, 1, otherwise)
  {
  }

  lemma FormatsStep1(p: T.Presence, otherwise: Category)
    ensures ClassifyFrom(Formats, p, 1, otherwise) ==
      if !p(T.Express) && p(T.Back) then StudioBackBodyBlaze else ClassifyFrom(Formats, p, 2, otherwise)
  {
  }

  lemma FormatsStep2(p: T.Presence, otherwise: Category)
    ensures ClassifyFrom(Formats, p, 2, otherwise) ==
      if !p(T.Express) && p(T.Barre57) then StudioBarre57 else ClassifyFrom(Formats, p, 3, otherwise)
  {
  }

  lemma FormatsStep3(p: T.Presence, otherwise: Category)
    ensures ClassifyFrom(Formats, p, 3, otherwise) ==
      if p(T.Express) && p(T.Barre57) then StudioBarre57Express else ClassifyFrom(Formats, p, 4, otherwise)
  {
  }

  lemma FormatsStep4(p: T.Presence, otherwise: Category)
    ensures ClassifyFrom(Formats, p, 4, otherwise) ==
      if !p(T.Express) && p(T.Cardio) then StudioCardioBarre else ClassifyFrom(Formats, p, 5, otherwise)
  {
  }

  lemma FormatsStep5(p: T.Presence, otherwise: Category)
    ensures ClassifyFrom(Formats, p, 5, otherwise) ==
      if p(T.Express) && p(T.Cardio) then StudioCardioBarreExpress else ClassifyFrom(Formats, p, 6, otherwise)
  {
  }

  lemma FormatsStep6(p: T.Presence, otherwise: Category)
    ensures ClassifyFrom(Formats, p, 6, otherwise) ==
      if !p(T.Express) && p(T.Mat) then StudioMat57 else ClassifyFrom(Formats, p, 7, otherwise)
  {
  }

  lemma FormatsStep7(p: T.Presence, otherwise: Category)
    ensures ClassifyFrom(Formats, p, 7, otherwise) ==
      if p(T.Express) && p(T.Mat) then StudioMat57Express else ClassifyFrom(Formats, p, 8, otherwise)
  {
  }

  lemma FormatsStep8(p: T.Presence, otherwise: Category)
    ensures ClassifyFrom(Formats, p, 8, otherwise) ==
      if !p(T.Express) && p(T.Hiit) then StudioHiit else ClassifyFrom(Formats, p, 9, otherwise)
  {
  }

  lemma FormatsStep9(p: T.Presence, otherwise: Category)
    ensures ClassifyFrom(Formats, p, 9, otherwise) ==
      if p(T.Express) && p(T.Hiit) then StudioHiitExpress else ClassifyFrom(Formats, p, 10, otherwise)
  {
  }

  lemma FormatsStep10(p: T.Presence, otherwise: Category)
    ensures ClassifyFrom(Formats, p, 10, otherwise) ==
      if !p(T.Express) && p(T.Foundation) then StudioFoundations else ClassifyFrom(Formats, p, 11, otherwise)
  {
  }

  lemma FormatsStep11(p: T.Presence, otherwise: Category)
    ensures ClassifyFrom(Formats, p, 11, otherwise) ==
      if p(T.Express) && p(T.Foundation) then StudioFoundationsExpress else ClassifyFrom(Formats, p, 12, otherwise)
  {
  }

  lemma FormatsStep12(p: T.Presence, otherwise: Category)
    ensures ClassifyFrom(Formats, p, 12, otherwise) ==
      if !p(T.Express) && p(T.Fit) then StudioFit else ClassifyFrom(Formats, p, 13, otherwise)
  {
  }

  lemma FormatsStep13(p: T.Presence, otherwise: Category)
    ensures ClassifyFrom(Formats, p, 13, otherwise) ==
      if p(T.Express) && p(T.Fit) then StudioFitExpress else ClassifyFrom(Formats, p, 14, otherwise)
  {
  }

  lemma FormatsStep14(p: T.Presence, otherwise: Category)
    ensures ClassifyFrom(Formats, p, 14, otherwise) ==
      if !p(T.Express) && p(T.Trainer) then StudioTrainersChoice else ClassifyFrom(Formats, p, 15, otherwise)
  {
  }

  lemma FormatsStep15(p: T.Presence, otherwise: Category)
    ensures ClassifyFrom(Formats, p, 15, otherwise) ==
      if p(T.Express) && p(T.Trainer) then StudioTrainersChoiceExpress else ClassifyFrom(Formats, p, 16, otherwise)
  {
  }

  /** The Formats rules and their piece of the chain agree. */
  lemma FormatsAgrees(p: T.Presence, otherwise: Category)
    ensures ClassifyOr(Formats, p, otherwise) == FormatsChain(p, otherwise)
  {
    FormatsStep0(p, otherwise);
    FormatsStep1(p, otherwise);
    FormatsStep2(p, otherwise);
    FormatsStep3(p, otherwise);
    FormatsStep4(p, otherwise);
    FormatsStep5(p, otherwise);
    FormatsStep6(p, otherwise);
    FormatsStep7(p, otherwise);
    FormatsStep8(p, otherwise);
    FormatsStep9(p, otherwise);
    FormatsStep10(p, otherwise);
    FormatsStep11(p, otherwise);
    FormatsStep12(p, otherwise);
    FormatsStep13(p, otherwise);
    FormatsStep14(p, otherwise);
    FormatsStep15(p, otherwise);
  }

  lemma SpecialsStep0(p: T.Presence, otherwise: Category)
    ensures ClassifyFrom(Specials, p, 0, otherwise) ==
      if p(T.Sweat) then StudioSweatIn30 else ClassifyFrom(Specials, p, 1, otherwise)
  {
  }

  lemma SpecialsStep1(p: T.Presence, otherwise: Category)
    ensures ClassifyFrom(Specials, p, 1, otherwise) ==
      if p(T.Recovery) then StudioRecovery else ClassifyFrom(Specials, p, 2, otherwise)
  {
  }

  lemma SpecialsStep2(p: T.Presence, otherwise: Category)
    ensures ClassifyFrom(Specials, p, 2, otherwise) ==
      if p(T.P57X) || p(T.Physique57X) || p(T.XPhysique57) || p(T.Birthday) || p(T.Sundowner) || p(T.Bridal) then StudioHostedClass else ClassifyFrom(Specials, p, 3, otherwise)
  {
  }

  lemma SpecialsStep3(p: T.Presence, otherwise: Category)
    ensures ClassifyFrom(Specials, p, 3, otherwise) ==
      if p(T.Powercycle) && p(T.Express) then StudioPowerCycleExpress else ClassifyFrom(Specials, p, 4, otherwise)
  {
  }

  lemma SpecialsStep4(p: T.Presence, otherwise: Category)
    ensures ClassifyFrom(Specials, p, 4, otherwise) ==
      if p(T.Powercycle) then StudioPowerCycle else ClassifyFrom(Specials, p, 5, otherwise)
  {
  }

  lemma SpecialsStep5(p: T.Presence, otherwise: Category)
    ensures ClassifyFrom(Specials, p, 5, otherwise) ==
      if p(T.StudioPrePostNatalClass) || p(T.OlympicsFinale) || p(T.PopUpClassAtRahejaVivarea) || p(T.BangaloreRugbyClubXPhysique57) then Others else ClassifyFrom(Specials, p, 6, otherwise)
  {
  }

  /** The Specials rules and their piece of the chain agree. */
  lemma SpecialsAgrees(p: T.Presence, otherwise: Category)
    ensures ClassifyOr(Specials, p, otherwise) == SpecialsChain(p, otherwise)
  {
    SpecialsStep0(p, otherwise);
    SpecialsStep1(p, otherwise);
    SpecialsStep2(p, otherwise);
    SpecialsStep3(p, otherwise);
    SpecialsStep4(p, otherwise);
    SpecialsStep5(p, otherwise);
  }

  lemma PassesStep0(p: T.Presence, otherwise: Category)
    ensures ClassifyFrom(Passes, p, 0, otherwise) ==
      if p(T.Flex30SingleClass) then Flex30SingleClass else ClassifyFrom(Passes, p, 1, otherwise)
  {
  }

  lemma PassesStep1(p: T.Presence, otherwise: Category)
    ensures ClassifyFrom(Passes, p, 1, otherwise) ==
      if p(T.Studio1MonthUnlimited) then Studio1MonthUnlimited else ClassifyFrom(Passes, p, 2, otherwise)
  {
  }

  lemma PassesStep2(p: T.Presence, otherwise: Category)
    ensures ClassifyFrom(Passes, p, 2, otherwise) ==
      if p(T.Studio8ClassPackage) then Studio8ClassPackage else ClassifyFrom(Passes, p, 3, otherwise)
  {
  }

  lemma PassesStep3(p: T.Presence, otherwise: Category)
    ensures ClassifyFrom(Passes, p, 3, otherwise) ==
      if p(T.StudioSingleClass) then StudioSingleClass else ClassifyFrom(Passes, p, 4, otherwise)
  {
  }

  lemma PassesStep4(p: T.Presence, otherwise: Category)
    ensures ClassifyFrom(Passes, p, 4, otherwise) ==
      if p(T.Studio12ClassPackage) then Studio12ClassPackage else ClassifyFrom(Passes, p, 5, otherwise)
  {
  }

  lemma PassesStep5(p: T.Presence, otherwise: Category)
    ensures ClassifyFrom(Passes, p, 5, otherwise) ==
      if p(T.Studio4ClassPackage) then Studio4ClassPackage else ClassifyFrom(Passes, p, 6, otherwise)
  {
  }

  lemma PassesStep6(p: T.Presence, otherwise: Category)
    ensures ClassifyFrom(Passes, p, 6, otherwise) ==
      if p(T.StudioOpenBarreClass) then StudioOpenBarreClass else ClassifyFrom(Passes, p, 7, otherwise)
  {
  }

  lemma PassesStep7(p: T.Presence, otherwise: Category)
    ensures ClassifyFrom(Passes, p, 7, otherwise) ==
      if p(T.Studio2WeekUnlimited) then Studio2WeekUnlimited else ClassifyFrom(Passes, p, 8, otherwise)
  {
  }

  lemma PassesStep8(p: T.Presence, otherwise: Category)
    ensures ClassifyFrom(Passes, p, 8, otherwise) ==
      if p(T.StudioComplimentaryClass) then StudioComplimentaryClass else ClassifyFrom(Passes, p, 9, otherwise)
  {
  }

  lemma PassesStep9(p: T.Presence, otherwise: Category)
    ensures ClassifyFrom(Passes, p, 9, otherwise) ==
      if p(T.StudioFreeInfluencerClass) then StudioFreeInfluencerClass else ClassifyFrom(Passes, p, 10, otherwise)
  {
  }

  lemma PassesStep10(p: T.Presence, otherwise: Category)
    ensures ClassifyFrom(Passes, p, 10, otherwise) ==
      if p(T.StudioNewcomers2WeekUnlimited) then StudioNewcomers2WeekUnlimited else ClassifyFrom(Passes, p, 11, otherwise)
  {
  }

  lemma PassesStep11(p: T.Presence, otherwise: Category)
    ensures ClassifyFrom(Passes, p, 11, otherwise) ==
      if p(T.StudioAnnualUnlimited) then StudioAnnualUnlimited else ClassifyFrom(Passes, p, 12, otherwise)
  {
  }

  lemma PassesStep12(p: T.Presence, otherwise: Category)
    ensures ClassifyFrom(Passes, p, 12, otherwise) ==
      if p(T.OutdoorComplimentaryClass) then OutdoorComplimentaryClass else ClassifyFrom(Passes, p, 13, otherwise)
  {
  }

  lemma PassesStep13(p: T.Presence, otherwise: Category)
    ensures ClassifyFrom(Passes, p, 13, otherwise) ==
      if p(T.StudioCommunityBarre) then StudioCommunityBarre else ClassifyFrom(Passes, p, 14, otherwise)
  {
  }

  lemma PassesStep14(p: T.Presence, otherwise: Category)
    ensures ClassifyFrom(Passes, p, 14, otherwise) ==
      if p(T.SunriseClass) then SunriseClass else ClassifyFrom(Passes, p, 15, otherwise)
  {
  }

  lemma PassesStep15(p: T.Presence, otherwise: Category)
    ensures ClassifyFrom(Passes, p, 15, otherwise) ==
      if p(T.VirtualPrivateApt) then VirtualPrivateApt else ClassifyFrom(Passes, p, 16, otherwise)
  {
  }

  lemma PassesStep16(p: T.Presence, otherwise: Category)
    ensures ClassifyFrom(Passes, p, 16, otherwise) ==
      if p(T.StudioPrivateApt) then StudioPrivateApt else ClassifyFrom(Passes, p, 17, otherwise)
  {
  }

  lemma PassesStep17(p: T.Presence, otherwise: Category)
    ensures ClassifyFrom(Passes, p, 17, otherwise) ==
      if p(T.OpenBarreComplimentaryClass) then OpenBarreClass else ClassifyFrom(Passes, p, 18, otherwise)
  {
  }

  lemma PassesStep18(p: T.Presence, otherwise: Category)
    ensures ClassifyFrom(Passes, p, 18, otherwise) ==
      if p(T.FfClassTest) then FfClassTest else ClassifyFrom(Passes, p, 19, otherwise)
  {
  }

  lemma PassesStep19(p: T.Presence, otherwise: Category)
    ensures ClassifyFrom(Passes, p, 19, otherwise) ==
      if p(T.OpenBarreClass) then OpenBarreClass else ClassifyFrom(Passes, p, 20, otherwise)
  {
  }

  /** The Passes rules and their piece of the chain agree. */
  lemma PassesAgrees(p: T.Presence, otherwise: Category)
    ensures ClassifyOr(Passes, p, otherwise) == PassesChain(p, otherwise)
  {
    PassesStep0(p, otherwise);
    PassesStep1(p, otherwise);
    PassesStep2(p, otherwise);
    PassesStep3(p, otherwise);
    PassesStep4(p, otherwise);
    PassesStep5(p, otherwise);
    PassesStep6(p, otherwise);
    PassesStep7(p, otherwise);
    PassesStep8(p, otherwise);
    PassesStep9(p, otherwise);
    PassesStep10(p, otherwise);
    PassesStep11(p, otherwise);
    PassesStep12(p, otherwise);
    PassesStep13(p, otherwise);
    PassesStep14(p, otherwise);
    PassesStep15(p, otherwise);
    PassesStep16(p, otherwise);
    PassesStep17(p, otherwise);
    PassesStep18(p, otherwise);
    PassesStep19(p, otherwise);
  }

}
