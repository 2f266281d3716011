/** Thousandths of a degree Celsius, the unit every reading and limit is kept in. */
module Units {
  type MilliCelsius = int
}
