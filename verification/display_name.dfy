/** The three places where the user renames the institution shown in the
    header: the shared context (src/context/UniversityNameContext.tsx), the
    self-storing title (src/components/ui/EditableTitle.tsx) and the landing
    page's name dialog (`handleNameSave` in
    src/components/dashboard/file-uploader.tsx). */
module DisplayName {
  import opened Wrappers
  import opened Text

  const DefaultName := "Consortium Universitas"

  lemma DefaultNameWellFormed()
    ensures !IsBlank(DefaultName) && IsTrimmed(DefaultName)
  {
    assert DefaultName[0] == 'C';
    assert DefaultName[|DefaultName| - 1] == 's';
  }

  /** The context's invariant: the name is never blank and carries no
      surrounding whitespace. */
  predicate NameOk(name: string) {
    !IsBlank(name) && IsTrimmed(name)
  }

  // ---------------------------------------------------------------------
  // UniversityNameContext
  // ---------------------------------------------------------------------

  function InitialUniversityName(): (name: string)
    ensures name == DefaultName && NameOk(name)
  {
    DefaultNameWellFormed();
    DefaultName
  }

  /** `setUniversityName`: the trimmed input, or the default when nothing
      but whitespace was typed. */
  function SetUniversityName(input: string): (name: string)
    ensures NameOk(name)
    ensures IsBlank(input) ==> name == DefaultName
    ensures !IsBlank(input) ==> name == Trim(input)
    ensures NameOk(input) ==> name == input
  {
    DefaultNameWellFormed();
    var trimmed := Trim(input);
    if trimmed == "" then DefaultName else trimmed
  }

  /** Setting a name twice is the same as setting it once. */
  lemma SetUniversityNameIdempotent(input: string)
    ensures SetUniversityName(SetUniversityName(input)) == SetUniversityName(input)
  {
  }

  /** `resetUniversityName`: the default, whatever the current name. */
  function ResetUniversityName(current: string): (name: string)
    ensures name == InitialUniversityName()
  {
    DefaultName
  }

  /** The calls the provider's consumers can make. */
  datatype NameAction = SetName(input: string) | ResetName

  function ApplyNameAction(current: string, a: NameAction): (name: string)
    ensures NameOk(name)
  {
    match a
    case SetName(input) => SetUniversityName(input)
    case ResetName => ResetUniversityName(current)
  }

  /** The provider's name after a sequence of calls, starting from the
      default. */
  function NameAfter(actions: seq<NameAction>): (name: string)
    ensures NameOk(name)
    ensures actions != [] && actions[|actions| - 1] == ResetName ==> name == DefaultName
  {
    if actions == [] then InitialUniversityName()
    else ApplyNameAction(NameAfter(actions[..|actions| - 1]), actions[|actions| - 1])
  }

  /** Neither call looks at the current name: after any calls, the name is
      what the last call alone makes of the default. */
  lemma NameDependsOnLastCall(actions: seq<NameAction>)
    requires actions != []
    ensures NameAfter(actions) == ApplyNameAction(DefaultName, actions[|actions| - 1])
  {
  }

  /** What the context provides. */
  datatype NameContext = NameContext(universityName: string)

  const OutsideProviderMessage := "useUniversityName debe usarse dentro de un UniversityNameProvider"

  /** `useUniversityName`: the context, or the error thrown outside a
      provider. */
  function UseUniversityName(ctx: Option<NameContext>): (r: Result<NameContext, string>)
    ensures r.Failure? <==> ctx.None?
    ensures r.Failure? ==> r.error == OutsideProviderMessage
    ensures r.Success? ==> r.value == ctx.value
  {
    match ctx
    case None => Failure(OutsideProviderMessage)
    case Some(c) => Success(c)
  }

  // ---------------------------------------------------------------------
  // EditableTitle
  // ---------------------------------------------------------------------

  const StorageKey := "appTitle"

  /** The title, the dialog, the dialog's input and the browser storage. */
  datatype TitleState = TitleState(title: string, open: bool, temp: string, storage: map<string, string>)

  /** The title is never blank and is always what storage holds under
      "appTitle". */
  predicate TitleInvariant(s: TitleState) {
    !IsBlank(s.title) && StorageKey in s.storage && s.storage[StorageKey] == s.title
  }

  /** Mounting: the title starts as the default, the saved title replaces it
      when it is present and not blank (untrimmed), and the storage effect
      then writes the title back. */
  function Mount(storage: map<string, string>): (s: TitleState)
    ensures TitleInvariant(s) && !s.open
    ensures StorageKey in storage && !IsBlank(storage[StorageKey]) ==> s.title == storage[StorageKey]
    ensures !(StorageKey in storage && !IsBlank(storage[StorageKey])) ==> s.title == DefaultName
    ensures forall k :: k != StorageKey ==> (k in s.storage <==> k in storage)
    ensures forall k :: k != StorageKey && k in storage ==> s.storage[k] == storage[k]
  {
    DefaultNameWellFormed();
    var title := if StorageKey in storage && !IsBlank(storage[StorageKey]) then storage[StorageKey] else DefaultName;
    TitleState(title, false, "", storage[StorageKey := title])
  }

  /** Opening the dialog copies the title into the input. */
  function Open(s: TitleState): (t: TitleState)
    ensures t.open && t.temp == s.title && t.title == s.title && t.storage == s.storage
  {
    TitleState(s.title, true, s.title, s.storage)
  }

  function Type(s: TitleState, text: string): (t: TitleState)
    ensures t == s.(temp := text)
  {
    s.(temp := text)
  }

  /** `onSave`: a blank input changes nothing and leaves the dialog open;
      otherwise the trimmed input becomes the title, is stored, and the
      dialog closes. */
  function Save(s: TitleState): (t: TitleState)
    requires TitleInvariant(s)
    ensures TitleInvariant(t)
    ensures IsBlank(s.temp) ==> t == s
    ensures !IsBlank(s.temp) ==> t.title == Trim(s.temp) && IsTrimmed(t.title) && !t.open
  {
    var v := Trim(s.temp);
    if v == "" then s
    else TitleState(v, false, s.temp, s.storage[StorageKey := v])
  }

  /** `onReset`: the default title, stored, and the dialog closed. */
  function Reset(s: TitleState): (t: TitleState)
    ensures TitleInvariant(t)
    ensures t.title == DefaultName && !t.open
  {
    DefaultNameWellFormed();
    TitleState(DefaultName, false, s.temp, s.storage[StorageKey := DefaultName])
  }

  /** Cancel, Escape or a click outside the dialog: closed, nothing else
      changes. */
  function Cancel(s: TitleState): (t: TitleState)
    ensures t == s.(open := false)
  {
    s.(open := false)
  }

  /** Any sequence of user actions keeps the invariant. */
  datatype TitleAction = OpenDialog | TypeText(text: string) | SaveTitle | ResetTitle | CancelDialog

  function Step(s: TitleState, a: TitleAction): (t: TitleState)
    requires TitleInvariant(s)
    ensures TitleInvariant(t)
  {
    match a
    case OpenDialog => Open(s)
    case TypeText(text) => Type(s, text)
    case SaveTitle => Save(s)
    case ResetTitle => Reset(s)
    case CancelDialog => Cancel(s)
  }

  function Run(s: TitleState, actions: seq<TitleAction>): (t: TitleState)
    requires TitleInvariant(s)
    ensures TitleInvariant(t)
    decreases |actions|
  {
    if actions == [] then s else Run(Step(s, actions[0]), actions[1..])
  }

  /** After a save of a non-blank input, reloading the page shows the saved
      (trimmed) title. */
  lemma SaveSurvivesReload(s: TitleState)
    requires TitleInvariant(s) && !IsBlank(s.temp)
    ensures Mount(Save(s).storage).title == Trim(s.temp)
  {
  }

  // ---------------------------------------------------------------------
  // The landing page's name dialog
  // ---------------------------------------------------------------------

  datatype NameDialog = NameDialog(displayName: string, open: bool, tempName: string)

  /** `handleNameSave`: the trimmed input or the default, and the dialog
      closes. It applies the same rule as the context's setter. */
  function HandleNameSave(d: NameDialog): (e: NameDialog)
    ensures !e.open && e.tempName == d.tempName
    ensures e.displayName == SetUniversityName(d.tempName)
    ensures NameOk(e.displayName)
  {
    var v := Trim(d.tempName);
    NameDialog(if |v| > 0 then v else DefaultName, false, d.tempName)
  }
}
