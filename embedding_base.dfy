/** `EmbeddingConfig`: the settings every embedding service is built with, a
    pydantic model with field constraints. */
module EmbeddingBase {
  import opened Wrappers

  datatype EmbeddingConfig = EmbeddingConfig(modelName: string, device: string, batchSize: int)

  /** A field whose constraint the supplied value breaks. */
  datatype Violation =
    | DeviceNotAllowed  // pattern "^(cpu|cuda)$"
    | BatchSizeNotPositive  // gt=0

  const DefaultDevice: string := "cpu"
  const DefaultBatchSize: int := 32

  /** The device pattern accepts exactly these two names. */
  predicate AllowedDevice(device: string) {
    device == "cpu" || device == "cuda"
  }

  /** `EmbeddingConfig(...)`: the model name has no default and no constraint;
      the device must be "cpu" or "cuda" and the batch size positive. Every
      failing field is reported; accepted values are stored as given. */
  function NewEmbeddingConfig(modelName: string, device: string := DefaultDevice, batchSize: int := DefaultBatchSize)
    : (r: Result<EmbeddingConfig, seq<Violation>>)
    ensures r.Ok? <==> AllowedDevice(device) && batchSize > 0
    ensures r.Ok? ==> r.value == EmbeddingConfig(modelName, device, batchSize)
    ensures r.Err? ==> (DeviceNotAllowed in r.error <==> !AllowedDevice(device))
                       && (BatchSizeNotPositive in r.error <==> batchSize <= 0)
  {
    var vs := (if AllowedDevice(device) then [] else [DeviceNotAllowed])
      + (if batchSize > 0 then [] else [BatchSizeNotPositive]);
    if vs == [] then Ok(EmbeddingConfig(modelName, device, batchSize)) else Err(vs)
  }

  /** With only a model name the service runs on the CPU in batches of 32. */
  lemma DefaultsAccepted(modelName: string)
    ensures NewEmbeddingConfig(modelName) == Ok(EmbeddingConfig(modelName, "cpu", 32))
  {
  }
}
