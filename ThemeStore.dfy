/** The persisted light/dark theme preference. */
module ThemeStore {
  import opened Types

  const InitialMode: ThemeMode := Light

  /** `toggleTheme`'s new mode: light becomes dark and anything else becomes light. */
  function Toggled(m: ThemeMode): (r: ThemeMode)
    ensures r != m
  {
    if m == Light then Dark else Light
  }

  lemma ToggleTwice(m: ThemeMode)
    ensures Toggled(Toggled(m)) == m
  {
  }

  class ThemeState {
    var mode: ThemeMode

    constructor()
      ensures mode == InitialMode
    {
      mode := Light;
    }

    method ToggleTheme()
      modifies this
      ensures mode == Toggled(old(mode))
    {
      mode := if mode == Light then Dark else Light;
    }

    /** Sets the mode whatever it was, so repeating it changes nothing. */
    method SetTheme(m: ThemeMode)
      modifies this
      ensures mode == m
    {
      mode := m;
    }
  }
}
