/** Compile-time configuration of the sprite field: window size, pool size,
    step size and the depth a sprite is recycled to. */
module Config {

  /** Height of the window in pixels; also the focal scale of the projection. */
  const WindowHeight: int := 800

  /** Width of the window in pixels. */
  const WindowWidth: int := 1400

  /** Number of sprites in the store. */
  const NumSprites: int := 5000

  /** How far one step moves a sprite, in real-space units. */
  const StepSize: int := 100

  /** The depth a sprite is sent back to when it would pass through the screen. */
  const RecycleDepth: int := 50 * WindowWidth

  /** Number of approach steps in one full depth cycle of a sprite on the step grid. */
  const CycleLength: int := RecycleDepth / StepSize

  /** An unsigned 8-bit value, as the C `uint8_t`. */
  type Byte = x: int | 0 <= x < 256
}
