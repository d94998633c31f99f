/** The reading pane's scroll offset, changed by `scrollup`/`scrolldown` wheel events in steps of 40. */
module Scrolling {
  const Step: real := 40.0

  /** How far the text may scroll: `max(readingHeight - canvas.height + originalTextYArr[0], 0)`. */
  function Limit(readingHeight: real, canvasHeight: real, firstLineY: real): (l: real)
    ensures 0.0 <= l
    ensures readingHeight - canvasHeight + firstLineY <= l
    ensures l == 0.0 || l == readingHeight - canvasHeight + firstLineY
  {
    if readingHeight - canvasHeight + firstLineY > 0.0 then readingHeight - canvasHeight + firstLineY else 0.0
  }

  /** `scrollup`: `min(scrollY + 40, 0)`. */
  function ScrolledUp(y: real): (r: real)
    ensures r <= 0.0 && r <= y + Step
    ensures r == y + Step || r == 0.0
  {
    if y + Step < 0.0 then y + Step else 0.0
  }

  /** `scrolldown`: `max(scrollY - 40, -limit)`. */
  function ScrolledDown(y: real, limit: real): (r: real)
    ensures -limit <= r && y - Step <= r
    ensures r == y - Step || r == -limit
  {
    if y - Step > -limit then y - Step else -limit
  }

  /** An offset within `[-limit, 0]` stays there after either event. */
  lemma ScrollStaysInBounds(y: real, limit: real)
    requires -limit <= y <= 0.0
    ensures -limit <= ScrolledUp(y) <= 0.0
    ensures -limit <= ScrolledDown(y, limit) <= 0.0
  {
  }
}
