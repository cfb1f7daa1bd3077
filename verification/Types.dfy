/** The enumerations shared by capture and playback. */
module Types {
  import opened Bytes

  datatype NaluType = SPS | PPS | IDR | OTHER

  datatype AudioType = AUDIO_INFO | AUDIO_DATA

  datatype ChannelType = MONO | STEREO

  /** One call of a NALU callback. */
  datatype Nalu = Nalu(kind: NaluType, data: Bytes)
}
