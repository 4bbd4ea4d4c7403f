/**
 * The one constant of lib/helpers.ts the core reads. lib/helpers.ts is not
 * part of this model; the list below is the set of extensions its
 * `builtinModuleExts` names.
 */
module Helpers {
  import opened Strings

  /** `builtinModuleExts`: the module extensions served as JavaScript or TypeScript, without the dot. */
  const BuiltinModuleExts: seq<string> := ["tsx", "ts", "mts", "jsx", "js", "mjs"]

  /** `builtinModuleExts.includes(ext)`. */
  predicate IsBuiltinExt(ext: string) {
    ext in BuiltinModuleExts
  }

  /** `builtinModuleExts.findIndex(ext => pathname.endsWith("." + ext)) !== -1`. */
  predicate EndsWithBuiltinExt(pathname: string) {
    exists i :: 0 <= i < |BuiltinModuleExts| && EndsWith(pathname, "." + BuiltinModuleExts[i])
  }
}
