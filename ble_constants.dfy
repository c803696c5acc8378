/** The Android side's protocol constants (`object BleConstants`). UUIDs are
    kept as their canonical strings; the model compares them only for
    equality. */
module BleConstants {
  const SERVICE_UUID: string := "0000BCBC-0000-1000-8000-00805F9B34FB"
  const ALERT_CHAR_UUID: string := "0000BCB1-0000-1000-8000-00805F9B34FB"
  const CONTROL_CHAR_UUID: string := "0000BCB2-0000-1000-8000-00805F9B34FB"
  const MANUFACTURER_ID: int := 0x1234
  /** An unnegotiated ATT MTU of 23 leaves 20 bytes, less the frame header. */
  const DEFAULT_CHUNK_SIZE: int := 17
}
