/**
 * The part of a vinyl file object that the transform looks at: where the
 * file lives (`base`, `relative`, `basename`) and what its contents are.
 */
module Vinyl {

  /** `isNull()`, `isDirectory()`, `isStream()` and `isBuffer()` of a vinyl file; a buffer is held as its text. */
  datatype Contents = Null | Directory | Stream | Buffer(text: string)

  datatype VinylFile = VinylFile(base: string, relative: string, basename: string, contents: Contents)

  /** The error a gulp plugin reports: the plugin's name and a message. */
  datatype PluginError = PluginError(plugin: string, message: string)
}
