/** parseConfigurationData: the five leading bytes of a configuration reply, read
    positionally into named fields. */
module Configuration {
  import opened Bytes
  import opened Results

  /** The object parseConfigurationData returns. A field is None where JavaScript's
      `data[i]` reads past the end of the array and yields undefined. */
  datatype ScanConfiguration = ScanConfiguration(
    scanType: Option<byte>,
    numRepeats: Option<byte>,
    exposureTime: Option<byte>,
    wavelengthStart: Option<byte>,
    wavelengthEnd: Option<byte>)
  {
    predicate Complete()
    {
      scanType.Some? && numRepeats.Some? && exposureTime.Some? &&
      wavelengthStart.Some? && wavelengthEnd.Some?
    }
  }

  /** JavaScript's `data[i]` on an array of bytes. */
  function ElementAt(data: seq<byte>, i: nat): Option<byte>
  {
    if i < |data| then Some(data[i]) else None
  }

  function ParseConfigurationData(data: seq<byte>): (c: ScanConfiguration)
    ensures c.Complete() <==> |data| >= 5
    ensures c.scanType == (if 0 < |data| then Some(data[0]) else None)
    ensures c.numRepeats == (if 1 < |data| then Some(data[1]) else None)
    ensures c.exposureTime == (if 2 < |data| then Some(data[2]) else None)
    ensures c.wavelengthStart == (if 3 < |data| then Some(data[3]) else None)
    ensures c.wavelengthEnd == (if 4 < |data| then Some(data[4]) else None)
    ensures |data| >= 5 ==>
      c.scanType.value == data[0] && c.numRepeats.value == data[1] &&
      c.exposureTime.value == data[2] && c.wavelengthStart.value == data[3] &&
      c.wavelengthEnd.value == data[4]
  {
    ScanConfiguration(
      ElementAt(data, 0), ElementAt(data, 1), ElementAt(data, 2),
      ElementAt(data, 3), ElementAt(data, 4))
  }

  /** The five payload bytes a device sends for a complete configuration. */
  function ConfigurationBytes(c: ScanConfiguration): (data: seq<byte>)
    requires c.Complete()
    ensures |data| == 5
  {
    [c.scanType.value, c.numRepeats.value, c.exposureTime.value,
     c.wavelengthStart.value, c.wavelengthEnd.value]
  }

  /** Parsing the bytes of a configuration, whatever follows them, gives it back. */
  lemma ParseConfigurationBytes(c: ScanConfiguration, rest: seq<byte>)
    requires c.Complete()
    ensures ParseConfigurationData(ConfigurationBytes(c) + rest) == c
  {
  }

  /** Only the first five bytes of a reply matter, and they are recovered from the
      parsed configuration. */
  lemma ConfigurationBytesOfParse(data: seq<byte>)
    requires |data| >= 5
    ensures ConfigurationBytes(ParseConfigurationData(data)) == data[..5]
  {
  }
}
