/** The library's return codes; errors are returned negated. */
module ReturnCodes {
  const CA_RET_OK := 0
  const CA_RET_GENERAL_FAILURE := -1
  const INVALID_PATH := -1003
  const INVALID_PARAM_VALUE := -1006
  const OBJECT_ALREADY_EXISTS := -1007
  const RESOURCE_NOT_AVAILABLE := -1009
  const EXCESS_OBJECT_COUNT := -1012
  const OPERATION_TIMED_OUT := -1013
  const OBJECT_DOES_NOT_EXIST := -1014
  const VALUE_OUT_OF_RANGE := -1016
  const OPERATION_ALREADY_DONE := -1028
  const CMD_LINE_PARAM_INSUFFICIENT := -1029
  const UNKNOWN_CMD_LINE_OPTION := -1030
  const INVALID_CMD_LINE_FORMAT := -1031
  const LENGTH_TOO_BIG := -1034

  const RET_OK := 0
  const RET_FAILED := -1
}
