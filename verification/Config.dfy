/** The limits of config.h that several components share. */
module Config {

  const MAX_FILE: nat := 1024 * 1024
  const MAX_DICT_FILE: nat := 128
  const MIN_AUTO_EXTRA: nat := 3
  const MAX_AUTO_EXTRA: nat := 32
  const TRIM_START_STEPS: nat := 16
}
