/**
 * The three-step onboarding wizard (components/LandingPage.tsx): step 1 asks
 * for a name, step 2 for a voice gender, step 3 for a language. The
 * component's state hooks are the fields of a class; the buttons and the text
 * input call its methods.
 */
module LandingPage {
  import opened Types
  import opened Text

  /** What the wizard hands to `onComplete`. */
  datatype OnboardingData = OnboardingData(name: string, gender: Gender, language: Language)

  class LandingPage {
    var step: int
    var name: string
    var gender: Option<Gender>
    var language: Language
    /** Every call of `onComplete`, in order; the wizard calls it once per press at step 3. */
    var completions: seq<OnboardingData>

    /** The step is one of the three screens, and the last screen is reached only with a gender chosen. */
    ghost predicate Valid()
      reads this
    {
      1 <= step <= 3 && (step == 3 ==> gender.Some?)
    }

    constructor ()
      ensures Valid()
      ensures step == 1 && name == "" && gender == None && language == English && completions == []
    {
      step, name, gender, language := 1, "", None, English;
      completions := [];
    }

    /** The `disabled` test of the Next button: a blank name on step 1, no gender on step 2. */
    predicate NextDisabled()
      reads this
      ensures NextDisabled() ==> step == 1 || step == 2
    {
      (step == 1 && Trim(name) == []) || (step == 2 && gender.None?)
    }

    /** The name field's `onChange`. */
    method SetName(text: string)
      requires Valid()
      modifies this
      ensures Valid()
      ensures name == text
      ensures step == old(step) && gender == old(gender) && language == old(language)
      ensures completions == old(completions)
    {
      name := text;
    }

    /** The Male and Female buttons: each assigns a gender, neither clears it. */
    method SetGender(g: Gender)
      requires Valid()
      modifies this
      ensures Valid()
      ensures gender == Some(g)
      ensures step == old(step) && name == old(name) && language == old(language)
      ensures completions == old(completions)
    {
      gender := Some(g);
    }

    /** The English and Hindi buttons. */
    method SetLanguage(lang: Language)
      requires Valid()
      modifies this
      ensures Valid()
      ensures language == lang
      ensures step == old(step) && name == old(name) && gender == old(gender)
      ensures completions == old(completions)
    {
      language := lang;
    }

    /**
     * `handleNext`: advance from step 1 once the trimmed name is non-empty and
     * from step 2 once a gender is chosen; at step 3 hand the answers to
     * `onComplete`. The step never goes back, and the button is disabled
     * exactly when pressing it would do nothing.
     */
    method HandleNext()
      requires Valid()
      modifies this
      ensures Valid()
      ensures old(step) <= step
      ensures name == old(name) && gender == old(gender) && language == old(language)
      ensures old(step) == 1 ==> step == (if Trim(name) != [] then 2 else 1) && completions == old(completions)
      ensures old(step) == 2 ==> step == (if gender.Some? then 3 else 2) && completions == old(completions)
      ensures old(step) == 3 ==>
                step == 3 && completions == old(completions) + [OnboardingData(name, gender.value, language)]
      ensures old(NextDisabled()) <==> step == old(step) && completions == old(completions)
    {
      if step == 1 && Trim(name) != [] {
        step := 2;
      } else if step == 2 && gender.Some? {
        step := 3;
      } else if step == 3 {
        completions := completions + [OnboardingData(name, gender.value, language)];
      }
    }
  }
}
