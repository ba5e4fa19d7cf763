/** Captured frames, as every importer normalises them. */
module Capture {
  import opened Common

  datatype Direction = Rx | Tx

  datatype FrameKind = Data | Remote | Error

  datatype FrameRecord = FrameRecord(
    timestampMicros: nat,
    channel: string,
    id: nat,
    extended: bool,
    fd: bool,
    kind: FrameKind,
    data: seq<byte>,
    direction: Option<Direction>)
}
