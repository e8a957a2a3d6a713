/** The hint presenter (InteractionHintUI): a single-line prompt with a
    visibility flag, an optional text replacement, and a background colour
    that pulses while visible and is reset to its base colour on hide. */
module InteractionHintUI {
  import opened Unity

  class Hint {
    // Which inspector references are assigned (`root` counting Awake's own lookup).
    const hasRoot: bool
    const hasText: bool
    const hasBackground: bool
    const baseColor: Color

    var visible: bool
    var alpha: real        // root.alpha
    var text: string       // hintText.text
    var background: Color  // backgroundImage.color

    /** Awake: the presenter starts hidden with its base colour; the text
        is whatever the scene gave it. */
    constructor (hasRoot: bool, hasText: bool, hasBackground: bool, baseColor: Color,
                 initialText: string, initialAlpha: real, initialBackground: Color)
      ensures this.hasRoot == hasRoot && this.hasText == hasText && this.hasBackground == hasBackground
      ensures this.baseColor == baseColor
      ensures !visible
      ensures alpha == (if hasRoot then 0.0 else initialAlpha)
      ensures text == initialText
      ensures background == (if hasBackground then baseColor else initialBackground)
    {
      this.hasRoot := hasRoot;
      this.hasText := hasText;
      this.hasBackground := hasBackground;
      this.baseColor := baseColor;
      visible, alpha, text, background := false, initialAlpha, initialText, initialBackground;
      new;
      SetVisible(false, None);
    }

    /** Shows or hides the prompt; a given text replaces the shown one, and
        hiding resets the background to the base colour. */
    method SetVisible(v: bool, newText: Option<string>)
      modifies this
      ensures visible == v
      ensures alpha == (if hasRoot then (if v then 1.0 else 0.0) else old(alpha))
      ensures text == (if hasText && newText.Some? then newText.value else old(text))
      ensures background == (if !v && hasBackground then baseColor else old(background))
    {
      visible := v;
      if hasRoot {
        alpha := if v then 1.0 else 0.0;
      }
      if hasText && newText.Some? {
        text := newText.value;
      }
      if !v && hasBackground {
        background := baseColor;
      }
    }

    /** One frame of Update.  `pulse` is the colour the sinusoidal blend
        between the base and pulse colours gives at the current time; it is
        applied only while the prompt is visible. */
    method Update(pulse: Color)
      modifies this
      ensures background == (if old(visible) && hasBackground then pulse else old(background))
      ensures visible == old(visible) && alpha == old(alpha) && text == old(text)
    {
      if !visible {
        return;
      }
      if hasBackground {
        background := pulse;
      }
    }
  }
}
