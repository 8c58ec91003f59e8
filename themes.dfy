/** The launcher's two stylesheets and the label of the button that switches between them. */
module Themes {

  /** `DARK_STYLESHEET` or `LIGHT_STYLESHEET`; the stylesheet text itself is not modelled. */
  datatype Theme = Dark | Light

  function Name(t: Theme): string {
    match t
    case Dark => "Dark"
    case Light => "Light"
  }

  /** The other theme. */
  function Toggled(t: Theme): (r: Theme)
    ensures r != t
  {
    if t == Dark then Light else Dark
  }

  /** The theme button's label while `t` is in use: it offers the other theme. */
  function SwitchLabel(t: Theme): (text: string)
    ensures text == "Switch to " + Name(Toggled(t)) + " Theme"
  {
    if t == Dark then "Switch to Light Theme" else "Switch to Dark Theme"
  }

  /** Toggling twice restores the theme. */
  lemma ToggleTwice(t: Theme)
    ensures Toggled(Toggled(t)) == t
  {
  }
}
