/**
  The substrings the class-name normaliser looks for, each with its text as
  the normaliser spells it (in lower case, since it tests a lower-cased name).
 */
module ClassTerms {
  import opened Text

  datatype Term =
    | Amped | Hosted | BridalShowerClass | SignUpLink | Hc | PopUpAtKitabMahal | NotApplicable
    | Express | Back | Barre57 | Cardio | Mat | Hiit | Foundation | Fit | Trainer | Sweat
    | Recovery | P57X | Physique57X | XPhysique57 | Birthday | Sundowner | Bridal | Powercycle
    | StudioPrePostNatalClass | OlympicsFinale | PopUpClassAtRahejaVivarea
    | BangaloreRugbyClubXPhysique57 | Flex30SingleClass | Studio1MonthUnlimited
    | Studio8ClassPackage | StudioSingleClass | Studio12ClassPackage | Studio4ClassPackage
    | StudioOpenBarreClass | Studio2WeekUnlimited | StudioComplimentaryClass
    | StudioFreeInfluencerClass | StudioNewcomers2WeekUnlimited | StudioAnnualUnlimited
    | OutdoorComplimentaryClass | StudioCommunityBarre | SunriseClass | VirtualPrivateApt
    | StudioPrivateApt | OpenBarreComplimentaryClass | FfClassTest | OpenBarreClass

  function TermText(t: Term): string
  {
    match t
    case Amped => "amped"
    case Hosted => "hosted"
    case BridalShowerClass => "bridal shower class!"
    case SignUpLink => "sign up link"
    case Hc => "hc"
    case PopUpAtKitabMahal => "please see pop up @ kitab mahal"
    case NotApplicable => "n/a"
    case Express => "express"
    case Back => "back"
    case Barre57 => "barre 57"
    case Cardio => "cardio"
    case Mat => "mat"
    case Hiit => "hiit"
    case Foundation => "foundation"
    case Fit => "fit"
    case Trainer => "trainer"
    case Sweat => "sweat"
    case Recovery => "recovery"
    case P57X => "p57 x"
    case Physique57X => "physique 57 x"
    case XPhysique57 => "x physique 57"
    case Birthday => "birthday"
    case Sundowner => "sundowner"
    case Bridal => "bridal"
    case Powercycle => "powercycle"
    case StudioPrePostNatalClass => "studio pre/post natal class"
    case OlympicsFinale => "olympics finale"
    case PopUpClassAtRahejaVivarea => "pop up class at raheja vivarea"
    case BangaloreRugbyClubXPhysique57 => "bangalore rugby club x physique 57"
    case Flex30SingleClass => "flex 30 single class"
    case Studio1MonthUnlimited => "studio 1 month unlimited"
    case Studio8ClassPackage => "studio 8 class package"
    case StudioSingleClass => "studio single class"
    case Studio12ClassPackage => "studio 12 class package"
    case Studio4ClassPackage => "studio 4 class package"
    case StudioOpenBarreClass => "studio open barre class"
    case Studio2WeekUnlimited => "studio 2 week unlimited"
    case StudioComplimentaryClass => "studio complimentary class"
    case StudioFreeInfluencerClass => "studio free influencer class"
    case StudioNewcomers2WeekUnlimited => "studio newcomers 2 week unlimited"
    case StudioAnnualUnlimited => "studio annual unlimited"
    case OutdoorComplimentaryClass => "outdoor complimentary class"
    case StudioCommunityBarre => "studio community barre"
    case SunriseClass => "sunrise class"
    case VirtualPrivateApt => "virtual private apt"
    case StudioPrivateApt => "studio private apt"
    case OpenBarreComplimentaryClass => "open barre complimentary class"
    case FfClassTest => "ff class test"
    case OpenBarreClass => "open barre class"
  }

  /** Which terms a name contains. */
  type Presence = Term -> bool

  /** The terms that occur in s. */
  function PresenceIn(s: string): Presence
  {
    t => Includes(s, TermText(t))
  }
}
