// The error categories the layers reason about (internal/netx). How a Go error maps
// to a category is outside the model; the category is the error.
module NetErrors {
  datatype ErrKind = Timeout | Refused | Reset | Eof | Unreachable | Alert | Dns | Other
}
