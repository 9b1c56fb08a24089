/** The colour state of `WishMakerViewController`: three stored channels,
    the view's background, and whether the slider panel is hidden. Each
    user event is a method that changes exactly what its handler changes. */
module Controller {
  import opened Hex

  /** `Constants.sliderMin` and `Constants.sliderMax`: every channel slider
      is built with this range. */
  const SliderMin: real := 0.0
  const SliderMax: real := 1.0

  predicate InSliderRange(x: real) { SliderMin <= x <= SliderMax }

  datatype Channel = Red | Green | Blue

  /** What `view.backgroundColor` holds: `.systemPink` as `configureUI`
      installs it (whose components UIKit chooses), or a colour built by
      the controller. */
  datatype Background = SystemPink | Solid(color: Color)

  class WishMakerViewController {
    var red: real
    var green: real
    var blue: real
    var background: Background
    /** `slidersStack.isHidden`. */
    var slidersHidden: bool

    /** Every stored channel lies in the sliders' range, which is the unit
        interval that random draws and decoded colours come from. */
    ghost predicate Valid()
      reads this
      ensures Valid() <==> InUnit(red) && InUnit(green) && InUnit(blue)
    {
      InSliderRange(red) && InSliderRange(green) && InSliderRange(blue)
    }

    /** The stored channels as an opaque colour (alpha 1); with valid
        channels it is a colour UIKit takes as is. */
    function CurrentColor(): (c: Color)
      reads this
      ensures c.alpha == 1.0
      ensures c.red == red && c.green == green && c.blue == blue
      ensures Valid() ==> InUnit(c.red) && InUnit(c.green) && InUnit(c.blue)
    {
      Color(red, green, blue, 1.0)
    }

    /** The stored channels start at white; `viewDidLoad` paints the
        background pink and shows the sliders. */
    constructor ()
      ensures red == 1.0 && green == 1.0 && blue == 1.0
      ensures background == SystemPink && !slidersHidden
      ensures Valid()
    {
      red, green, blue := 1.0, 1.0, 1.0;
      background := SystemPink;
      slidersHidden := false;
    }

    /** `updateBackgroundColor`: the background becomes the stored triple
        with alpha 1. */
    method UpdateBackgroundColor()
      modifies this
      ensures background == Solid(old(CurrentColor()))
      ensures red == old(red) && green == old(green) && blue == old(blue)
      ensures slidersHidden == old(slidersHidden)
    {
      background := Solid(Color(red, green, blue, 1.0));
    }

    /** The `valueChanged` closure of one channel's slider: that channel
        takes the slider's value, the others keep theirs, and the
        background shows the new triple. */
    method SliderValueChanged(ch: Channel, value: real)
      modifies this
      ensures red == (if ch == Red then value else old(red))
      ensures green == (if ch == Green then value else old(green))
      ensures blue == (if ch == Blue then value else old(blue))
      ensures background == Solid(CurrentColor())
      ensures slidersHidden == old(slidersHidden)
      ensures old(Valid()) && InSliderRange(value) ==> Valid()
    {
      match ch {
        case Red => red := value;
        case Green => green := value;
        case Blue => blue := value;
      }
      UpdateBackgroundColor();
    }

    /** `toggleSliders`: only the visibility flag flips. */
    method ToggleSliders()
      modifies this
      ensures slidersHidden == !old(slidersHidden)
      ensures red == old(red) && green == old(green) && blue == old(blue)
      ensures background == old(background)
    {
      slidersHidden := !slidersHidden;
    }

    /** `applyRandomColor`: three random draws from the closed interval
        [0, 1] arrive as `r`, `g` and `b`; they become the channels and the
        background shows them. */
    method ApplyRandomColor(r: real, g: real, b: real)
      requires InUnit(r) && InUnit(g) && InUnit(b)
      modifies this
      ensures red == r && green == g && blue == b
      ensures background == Solid(Color(r, g, b, 1.0))
      ensures slidersHidden == old(slidersHidden)
      ensures Valid()
    {
      red := r;
      green := g;
      blue := b;
      UpdateBackgroundColor();
    }

    /** The OK action of the hex alert, given the text field's text (`None`
        when the field has none). A text the decoder accepts becomes the
        background; the stored channels and the sliders stay as they are.
        Anything else changes nothing. */
    method HexEntered(text: Option<string>)
      modifies this
      ensures text.Some? && ColorFromHex(text.value).Some? ==>
        background == Solid(ColorFromHex(text.value).value)
      ensures text.None? || ColorFromHex(text.value).None? ==> background == old(background)
      ensures red == old(red) && green == old(green) && blue == old(blue)
      ensures slidersHidden == old(slidersHidden)
    {
      match text
      case None =>
      case Some(hex) =>
        match ColorFromHex(hex)
        case None =>
        case Some(color) => background := Solid(color);
    }
  }

  // ---------------------------------------------------------------------------
  // Event sequences, as a client of the class sees them
  // ---------------------------------------------------------------------------

  /** Moving the three sliders to 0.5, 0.25 and 1 shows (0.5, 0.25, 1, 1). */
  method SlidersScenario() returns (shown: Background)
    ensures shown == Solid(Color(0.5, 0.25, 1.0, 1.0))
  {
    var w := new WishMakerViewController();
    w.SliderValueChanged(Red, 0.5);
    w.SliderValueChanged(Green, 0.25);
    w.SliderValueChanged(Blue, 1.0);
    shown := w.background;
  }

  /** Toggling twice restores the visibility and touches nothing else. */
  method ToggleTwice(w: WishMakerViewController)
    modifies w
    ensures w.slidersHidden == old(w.slidersHidden)
    ensures w.red == old(w.red) && w.green == old(w.green) && w.blue == old(w.blue)
    ensures w.background == old(w.background)
  {
    w.ToggleSliders();
    w.ToggleSliders();
  }

  /** A hex colour is shown but not stored: the next slider move repaints
      the background from the stored channels, so the hex colour's other
      two channels are lost. */
  method HexThenSlider(w: WishMakerViewController, hex: string, value: real)
    modifies w
    ensures w.background == Solid(Color(value, old(w.green), old(w.blue), 1.0))
  {
    w.HexEntered(Some(hex));
    w.SliderValueChanged(Red, value);
  }
}
