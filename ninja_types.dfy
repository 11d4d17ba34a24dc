/** The NinjaOne records the collector handles (src/types/ninja.types.ts). */
module NinjaTypes {

  /** One activity record. Only `id` takes part in the collector's logic: it orders
      the batch and becomes the stored cursor. Every other field of the record
      (time, device, severity, status, message, data, ...) travels unchanged to
      the webhook, so it is kept here as one opaque payload. */
  datatype Activity = Activity(id: int, payload: string)
}
