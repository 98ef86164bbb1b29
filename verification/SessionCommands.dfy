/** Commands a session handle sends to its worker, and the terminal's scroll commands. */
module SessionCommands {

  const ISIZE_MAX: int := 0x7FFF_FFFF_FFFF_FFFF
  const ISIZE_MIN: int := -0x8000_0000_0000_0000

  /** Rust's 64-bit `isize`. */
  type isize = x: int | ISIZE_MIN <= x <= ISIZE_MAX

  type byte = x: int | 0 <= x < 256

  datatype TerminalScrollCommand =
    | Top
    | Bottom
    | DeltaRows(rows: isize)
    | SetOffsetRows(offset: nat)
    | PageUp
    | PageDown

  /** Event payloads and reply channels the worker passes through are opaque numbers. */
  datatype SessionCommand =
    | Input(bytes: seq<byte>)
    | Text(event: nat)
    | Key(event: nat)
    | Mouse(event: nat)
    | Paste(event: nat)
    | Resize(geometry: nat)
    | ScrollViewport(scroll: TerminalScrollCommand)
    | ScrollToBottom
    | CopySelectionText(reply: nat)
    | PreviousTurn(reply: nat)
    | CopyActiveScreen(reply: nat)

  predicate IsScroll(command: SessionCommand) {
    command.ScrollViewport? || command.ScrollToBottom?
  }

  predicate IsDelta(command: SessionCommand) {
    command.ScrollViewport? && command.scroll.DeltaRows?
  }

  function Delta(rows: isize): SessionCommand {
    ScrollViewport(DeltaRows(rows))
  }
}
