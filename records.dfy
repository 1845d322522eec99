/**
 * The raw product record that extraction produces and normalisation
 * consumes: seven fields, each always present, with fixed placeholder texts
 * standing in for fields the card did not provide.
 */
module Records {
  import opened Wrappers
  import opened Timestamps

  const UNKNOWN_TITLE: string := "Unknown Title"
  const PRICE_NOT_AVAILABLE: string := "Price Not Available"
  const INVALID_RATING: string := "Invalid Rating"
  const NO_COLORS: string := "No Colors"
  const UNKNOWN: string := "Unknown"

  /**
   * One scraped product (the dictionary with keys Title, Price, Rating,
   * Colors, Size, Gender, Timestamp). `timestamp` is `None` only for a row
   * whose capture time cannot be read as a date and time.
   */
  datatype RawRecord = RawRecord(
    title: string,
    price: string,
    rating: string,
    colors: string,
    size: string,
    gender: string,
    timestamp: Option<DateTime>)
}
