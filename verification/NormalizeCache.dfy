/**
 The stream player's cache of image normalization options. Computing options is left uninterpreted:
 a value is the stream, pixel format and captured configuration it was computed from.
 */
module NormalizeCache {
  import opened Prelude
  import opened ReaderModel

  type PixelFormat = nat

  /** `config` is the metadata block captured, or None for the default when none was. */
  datatype Options = Options(stream: StreamId, format: PixelFormat, config: Option<Layout>)

  datatype CachedOptions = CachedOptions(sourcePixelFormat: PixelFormat, options: Options)

  /** One capture: which stream, and the metadata block captured. */
  datatype Captured = Captured(stream: StreamId, layout: Layout)

  /** The stream's most recently captured configuration. */
  function LastCaptured(history: seq<Captured>, stream: StreamId): Option<Layout> {
    if history == [] then None
    else if history[|history| - 1].stream == stream then Some(history[|history| - 1].layout)
    else LastCaptured(history[..|history| - 1], stream)
  }

  class StreamPlayer {
    var streamNormalizeConfigs: map<StreamId, Layout>
    var streamNormalizeOptions: map<StreamId, CachedOptions>
    ghost var history: seq<Captured>

    ghost predicate Valid()
      reads this
    {
      && (forall st :: Find(streamNormalizeConfigs, st) == LastCaptured(history, st))
      && (forall st | st in streamNormalizeOptions ::
            var c := streamNormalizeOptions[st];
            c.options == Options(st, c.sourcePixelFormat, LastCaptured(history, st)))
    }

    constructor ()
      ensures Valid() && history == [] && streamNormalizeConfigs == map[]
    {
      streamNormalizeConfigs, streamNormalizeOptions := map[], map[];
      history := [];
    }

    /** A configuration record's metadata was read: forget what was computed from the previous one. */
    method CaptureNormalizeOptionsConfig(stream: StreamId, layout: Layout)
      requires Valid()
      modifies this
      ensures Valid() && history == old(history) + [Captured(stream, layout)]
      ensures streamNormalizeConfigs == old(streamNormalizeConfigs)[stream := layout]
    {
      streamNormalizeConfigs := streamNormalizeConfigs[stream := layout];
      streamNormalizeOptions := streamNormalizeOptions - {stream};
      history := history + [Captured(stream, layout)];
      assert history[..|history| - 1] == old(history);
    }

    /** The options used for an image: those that recomputing from scratch would give. */
    method OptionsFor(stream: StreamId, pixelFormat: PixelFormat) returns (options: Options)
      requires Valid()
      modifies this`streamNormalizeOptions
      ensures Valid()
      ensures options == Options(stream, pixelFormat, LastCaptured(history, stream))
      ensures options == Options(stream, pixelFormat, Find(streamNormalizeConfigs, stream))
    {
      if stream !in streamNormalizeOptions || streamNormalizeOptions[stream].sourcePixelFormat != pixelFormat {
        var config := Find(streamNormalizeConfigs, stream);
        var computed := CachedOptions(pixelFormat, Options(stream, pixelFormat, config));
        streamNormalizeOptions := streamNormalizeOptions[stream := computed];
      }
      options := streamNormalizeOptions[stream].options;
    }
  }
}
