/** The persisted display and behaviour preferences of the trainer. Persistence
    and the `data-theme` attribute written to the document are side effects
    outside the model. */
module Settings {
  datatype Theme = Dark | Light
  datatype FontSize = Small | Medium | Large

  datatype Settings = Settings(
    theme: Theme,
    fontSize: FontSize,
    soundEnabled: bool,
    autoSubmit: bool,
    shuffleChoices: bool)

  const Defaults := Settings(Dark, Medium, true, true, false)

  function SetTheme(s: Settings, theme: Theme): (r: Settings)
    ensures r.theme == theme && r.(theme := s.theme) == s
  {
    s.(theme := theme)
  }

  function SetFontSize(s: Settings, size: FontSize): (r: Settings)
    ensures r.fontSize == size && r.(fontSize := s.fontSize) == s
  {
    s.(fontSize := size)
  }

  function ToggleSound(s: Settings): (r: Settings)
    ensures r.soundEnabled != s.soundEnabled && r.(soundEnabled := s.soundEnabled) == s
  {
    s.(soundEnabled := !s.soundEnabled)
  }

  function ToggleAutoSubmit(s: Settings): (r: Settings)
    ensures r.autoSubmit != s.autoSubmit && r.(autoSubmit := s.autoSubmit) == s
  {
    s.(autoSubmit := !s.autoSubmit)
  }

  function ToggleShuffleChoices(s: Settings): (r: Settings)
    ensures r.shuffleChoices != s.shuffleChoices && r.(shuffleChoices := s.shuffleChoices) == s
  {
    s.(shuffleChoices := !s.shuffleChoices)
  }

  /** Each toggle undoes itself, and the setters are idempotent and independent. */
  lemma TogglesAreInvolutions(s: Settings)
    ensures ToggleSound(ToggleSound(s)) == s
    ensures ToggleAutoSubmit(ToggleAutoSubmit(s)) == s
    ensures ToggleShuffleChoices(ToggleShuffleChoices(s)) == s
  {
  }

  lemma SettersCommute(s: Settings, theme: Theme, size: FontSize)
    ensures SetTheme(SetFontSize(s, size), theme) == SetFontSize(SetTheme(s, theme), size)
    ensures SetTheme(SetTheme(s, theme), theme) == SetTheme(s, theme)
  {
  }
}
