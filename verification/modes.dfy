/** The top-level states of the modal interface.  The enum in
    `src/core/state.rs` lists five of them; the keymap and the renderer also
    use `Stats`, so the model takes the union. */
module Modes {
  datatype Mode = Normal | Insert | Visual | Command | Filter | Stats
}
