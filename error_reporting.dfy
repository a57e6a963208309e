/**
 * The "Development Error Reporting" plugin (src/error-reporting.php): the error-reporting
 * level is every category but the two deprecation categories, unless the constant
 * `DEV_ERROR_REPORTING` holds an integer. PHP integers are 64 bits wide, so levels are
 * `bv64`; the category values are those of PHP 8.
 */
module ErrorReporting {
  const E_ERROR: bv64 := 1
  const E_WARNING: bv64 := 2
  const E_PARSE: bv64 := 4
  const E_NOTICE: bv64 := 8
  const E_CORE_ERROR: bv64 := 16
  const E_CORE_WARNING: bv64 := 32
  const E_COMPILE_ERROR: bv64 := 64
  const E_COMPILE_WARNING: bv64 := 128
  const E_USER_ERROR: bv64 := 256
  const E_USER_WARNING: bv64 := 512
  const E_USER_NOTICE: bv64 := 1024
  const E_STRICT: bv64 := 2048
  const E_RECOVERABLE_ERROR: bv64 := 4096
  const E_DEPRECATED: bv64 := 8192
  const E_USER_DEPRECATED: bv64 := 16384
  const E_ALL: bv64 := 32767

  /** The categories that the default level keeps. */
  const KeptCategories: seq<bv64> := [
    E_ERROR, E_WARNING, E_PARSE, E_NOTICE, E_CORE_ERROR, E_CORE_WARNING, E_COMPILE_ERROR,
    E_COMPILE_WARNING, E_USER_ERROR, E_USER_WARNING, E_USER_NOTICE, E_STRICT, E_RECOVERABLE_ERROR]

  /** The constant `DEV_ERROR_REPORTING`: undefined, an int, or defined with another type. */
  datatype Definition = Undefined | IntValue(value: bv64) | OtherValue

  /** `get_error_reporting`. */
  function GetErrorReporting(dev: Definition): (r: bv64)
    ensures dev.IntValue? ==> r == dev.value
    ensures !dev.IntValue? ==> r == 8191
    ensures !dev.IntValue? ==> r & E_DEPRECATED == 0 && r & E_USER_DEPRECATED == 0
    ensures !dev.IntValue? ==> r | E_DEPRECATED | E_USER_DEPRECATED == E_ALL
  {
    var errorReporting := E_ALL & !E_DEPRECATED & !E_USER_DEPRECATED;
    if dev.IntValue? then dev.value else errorReporting
  }

  /** The level after the plugin loads: changed only in a local environment. */
  function LevelAfterLoad(environmentType: string, current: bv64, dev: Definition): (r: bv64)
    ensures environmentType != "local" ==> r == current
    ensures environmentType == "local" ==> r == GetErrorReporting(dev)
  {
    if environmentType != "local" then current else GetErrorReporting(dev)
  }

  /** `E_ALL` is the union of all fifteen categories; the kept ones share no bit with the dropped ones. */
  lemma AllIsEveryCategory()
    ensures E_ALL == E_ERROR | E_WARNING | E_PARSE | E_NOTICE | E_CORE_ERROR | E_CORE_WARNING
                   | E_COMPILE_ERROR | E_COMPILE_WARNING | E_USER_ERROR | E_USER_WARNING
                   | E_USER_NOTICE | E_STRICT | E_RECOVERABLE_ERROR | E_DEPRECATED | E_USER_DEPRECATED
    ensures forall c :: c in KeptCategories ==> c & (E_DEPRECATED | E_USER_DEPRECATED) == 0
  {
  }

  /** The default level keeps every other category, `E_NOTICE` among them. */
  lemma DefaultKeepsOtherCategories(dev: Definition)
    requires !dev.IntValue?
    ensures forall c :: c in KeptCategories ==> GetErrorReporting(dev) & c == c
    ensures GetErrorReporting(dev) & E_NOTICE == E_NOTICE
  {
  }

  /** The override shown in the plugin's header also drops notices. */
  lemma DocumentedOverride()
    ensures GetErrorReporting(IntValue(E_ALL & !E_DEPRECATED & !E_USER_DEPRECATED & !E_NOTICE)) == 8183
    ensures GetErrorReporting(IntValue(E_ALL & !E_DEPRECATED & !E_USER_DEPRECATED & !E_NOTICE)) & E_NOTICE == 0
  {
  }
}
